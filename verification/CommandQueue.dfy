/**
 The 64-entry priority queue of DALI requests, kept sorted in one array by shifting.
 It behaves as four first-in first-out lanes, one per priority, served most urgent
 first.
 */
module CommandQueue {
  import opened Wrappers
  import opened Sequences

  const CAPACITY := 64

  // Critical is 0, High 1, Normal 2, Low 3.
  type Priority = p: nat | p < 4

  datatype DaliRequest = DaliRequest(
    frame: nat, expectsResponse: bool, timeoutMs: nat, maxRetries: nat,
    priority: Priority, deviceKey: nat, requestSequence: nat)

  const BLANK := DaliRequest(0, true, 20, 3, 2, 0xFF, 0)

  datatype QueueResult = Ok | Full

  // ------------------------------------------------------------ the array as a sequence

  // How many leading requests are at least as urgent as a newcomer.
  function InsertionPoint(queue: seq<DaliRequest>, priority: Priority): (at: nat)
    ensures at <= |queue|
    ensures forall i :: 0 <= i < at ==> queue[i].priority <= priority
    ensures at < |queue| ==> queue[at].priority > priority
  {
    if queue == [] || queue[0].priority > priority then 0
    else 1 + InsertionPoint(queue[1..], priority)
  }

  function Inserted(queue: seq<DaliRequest>, request: DaliRequest): (longer: seq<DaliRequest>)
    ensures |longer| == |queue| + 1
  {
    var at := InsertionPoint(queue, request.priority);
    queue[..at] + [request] + queue[at..]
  }

  class DaliCommandQueue {
    const items: array<DaliRequest>
    var count: nat

    ghost predicate Valid()
      reads this
    {
      items.Length == CAPACITY && count <= CAPACITY
    }

    ghost function Contents(): (queue: seq<DaliRequest>)
      requires Valid()
      reads this, items
      ensures |queue| == count
    {
      items[..count]
    }

    constructor ()
      ensures Valid() && fresh(items) && Contents() == []
    {
      items := new DaliRequest[CAPACITY](i => BLANK);
      count := 0;
    }

    method Enqueue(request: DaliRequest) returns (result: QueueResult)
      requires Valid()
      modifies this, items
      ensures Valid()
      ensures result == if |old(Contents())| == CAPACITY then Full else Ok
      ensures Contents() ==
        if |old(Contents())| == CAPACITY then old(Contents()) else Inserted(old(Contents()), request)
    {
      hide InsertionPoint;
      hide Inserted;
      if count == CAPACITY { return Full; }
      ghost var queue := Contents();
      var insertion := 0;
      while insertion < count && items[insertion].priority <= request.priority
        invariant insertion <= count
        invariant forall i :: 0 <= i < insertion ==> queue[i].priority <= request.priority
      {
        insertion := insertion + 1;
      }
      InsertionPointUnique(queue, request.priority, insertion);
      var index := count;
      while index > insertion
        invariant Valid() && count == old(count) && insertion <= index <= count
        invariant forall i :: 0 <= i < index ==> items[i] == queue[i]
        invariant forall i :: index < i <= count ==> items[i] == queue[i - 1]
      {
        items[index] := items[index - 1];
        index := index - 1;
      }
      items[insertion] := request;
      count := count + 1;
      GapFilled(queue, request, insertion, Contents());
      return Ok;
    }

    method Pop() returns (request: Option<DaliRequest>)
      requires Valid()
      modifies this, items
      ensures Valid()
      ensures old(Contents()) == [] ==> request == None && Contents() == []
      ensures old(Contents()) != [] ==>
        request == Some(old(Contents())[0]) && Contents() == old(Contents())[1..]
    {
      if count == 0 { return None; }
      ghost var queue := Contents();
      request := Some(items[0]);
      var index := 1;
      while index < count
        invariant Valid() && count == old(count) && 1 <= index <= count
        invariant forall i :: 0 <= i < index - 1 ==> items[i] == queue[i + 1]
        invariant forall i :: index <= i < count ==> items[i] == queue[i]
      {
        items[index - 1] := items[index];
        index := index + 1;
      }
      count := count - 1;
    }
  }

  lemma {:induction false} InsertionPointUnique(queue: seq<DaliRequest>, priority: Priority, at: nat)
    requires at <= |queue|
    requires forall i :: 0 <= i < at ==> queue[i].priority <= priority
    requires at < |queue| ==> queue[at].priority > priority
    ensures InsertionPoint(queue, priority) == at
  {}

  // What the shifting loop leaves behind is the queue with the newcomer inserted.
  lemma {:induction false} GapFilled(queue: seq<DaliRequest>, request: DaliRequest, at: nat, after: seq<DaliRequest>)
    requires at == InsertionPoint(queue, request.priority) && |after| == |queue| + 1
    requires after[at] == request
    requires forall i :: 0 <= i < at ==> after[i] == queue[i]
    requires forall i :: at < i < |after| ==> after[i] == queue[i - 1]
    ensures after == Inserted(queue, request)
  {
    hide InsertionPoint;
  }

  // ----------------------------------------------------------------------- four lanes

  // The reference: a first-in first-out queue for each priority.
  type Lane = seq<DaliRequest>
  datatype Lanes = Lanes(critical: Lane, high: Lane, normal: Lane, low: Lane) {
    function At(p: Priority): Lane {
      if p == 0 then critical else if p == 1 then high else if p == 2 then normal else low
    }

    function Push(request: DaliRequest): Lanes {
      if request.priority == 0 then this.(critical := critical + [request])
      else if request.priority == 1 then this.(high := high + [request])
      else if request.priority == 2 then this.(normal := normal + [request])
      else this.(low := low + [request])
    }

    // The most urgent lane that holds anything gives up its oldest request.
    function Serve(): (Lanes, Option<DaliRequest>) {
      if critical != [] then (this.(critical := critical[1..]), Some(critical[0]))
      else if high != [] then (this.(high := high[1..]), Some(high[0]))
      else if normal != [] then (this.(normal := normal[1..]), Some(normal[0]))
      else if low != [] then (this.(low := low[1..]), Some(low[0]))
      else (this, None)
    }

    function Flat(): seq<DaliRequest> { critical + high + normal + low }

    ghost predicate Valid() {
      && (forall i :: 0 <= i < |critical| ==> critical[i].priority == 0)
      && (forall i :: 0 <= i < |high| ==> high[i].priority == 1)
      && (forall i :: 0 <= i < |normal| ==> normal[i].priority == 2)
      && (forall i :: 0 <= i < |low| ==> low[i].priority == 3)
    }
  }

  const NO_LANES := Lanes([], [], [], [])

  lemma {:induction false} InsertedBetween(front: seq<DaliRequest>, back: seq<DaliRequest>, request: DaliRequest)
    requires forall i :: 0 <= i < |front| ==> front[i].priority <= request.priority
    requires forall i :: 0 <= i < |back| ==> back[i].priority > request.priority
    ensures Inserted(front + back, request) == front + [request] + back
  {
    InsertionPointUnique(front + back, request.priority, |front|);
    assert (front + back)[..|front|] == front && (front + back)[|front|..] == back;
  }

  lemma {:induction false} PushKeepsLanes(lanes: Lanes, request: DaliRequest)
    requires lanes.Valid()
    ensures lanes.Push(request).Valid()
  {}

  lemma {:induction false} InsertedIsPush(lanes: Lanes, request: DaliRequest)
    requires lanes.Valid()
    ensures lanes.Push(request).Valid()
    ensures Inserted(lanes.Flat(), request) == lanes.Push(request).Flat()
  {
    PushKeepsLanes(lanes, request);
    hide Inserted;
    var Lanes(critical, high, normal, low) := lanes;
    var one := [request];
    if request.priority == 0 {
      InsertedBetween(critical, high + normal + low, request);
      FlatFromFirst(critical, high, normal, low);
      FlatFromFirst(critical + one, high, normal, low);
    } else if request.priority == 1 {
      InsertedBetween(critical + high, normal + low, request);
      Associative(critical + high, normal, low);
      Associative(critical, high, one);
      Associative(critical + high + one, normal, low);
    } else if request.priority == 2 {
      InsertedBetween(critical + high + normal, low, request);
      Associative(critical + high, normal, one);
    } else {
      InsertedBetween(lanes.Flat(), [], request);
      Associative(critical + high + normal, low, one);
      assert lanes.Flat() + [] == lanes.Flat();
      assert lanes.Flat() + one + [] == lanes.Flat() + one;
    }
  }

  lemma {:induction false} FlatFromFirst(x: Lane, y: Lane, z: Lane, w: Lane)
    ensures Lanes(x, y, z, w).Flat() == x + (y + z + w)
  {
    Associative(x, y + z, w);
    Associative(x, y, z);
  }

  lemma {:induction false} ServeKeepsLanes(lanes: Lanes)
    requires lanes.Valid()
    ensures lanes.Serve().0.Valid()
  {}

  lemma {:induction false} HeadIsServed(lanes: Lanes)
    requires lanes.Valid()
    ensures var (rest, served) := lanes.Serve();
      && rest.Valid()
      && (served.None? <==> lanes.Flat() == [])
      && (served.Some? ==> served.value == lanes.Flat()[0] && rest.Flat() == lanes.Flat()[1..])
  {
    ServeKeepsLanes(lanes);
    hide Lanes.Valid;
    var Lanes(critical, high, normal, low) := lanes;
    if critical != [] {
      FlatFromFirst(critical, high, normal, low);
      FlatFromFirst(critical[1..], high, normal, low);
      DropFirst(critical, high + normal + low);
    } else {
      Unit(high);
    }
  }

  // ------------------------------------------------------------------------ whole runs

  datatype Command = Enqueue(request: DaliRequest) | Pop
  datatype Reply = Stored(accepted: DaliRequest) | Refused | Popped(served: Option<DaliRequest>)

  // The class, one call at a time.
  function QueueStep(queue: seq<DaliRequest>, command: Command): (seq<DaliRequest>, Reply) {
    match command
    case Enqueue(request) =>
      if |queue| == CAPACITY then (queue, Refused) else (Inserted(queue, request), Stored(request))
    case Pop =>
      if queue == [] then (queue, Popped(None)) else (queue[1..], Popped(Some(queue[0])))
  }

  function QueueRun(commands: seq<Command>): (seq<DaliRequest>, seq<Reply>) {
    if commands == [] then ([], [])
    else
      var last := |commands| - 1;
      var (queue, replies) := QueueRun(commands[..last]);
      var (queue', reply) := QueueStep(queue, commands[last]);
      (queue', replies + [reply])
  }

  // The reference, one call at a time.
  function LanesStep(lanes: Lanes, command: Command): (Lanes, Reply) {
    match command
    case Enqueue(request) =>
      if |lanes.Flat()| == 64 then (lanes, Refused) else (lanes.Push(request), Stored(request))
    case Pop =>
      var (rest, served) := lanes.Serve();
      (rest, Popped(served))
  }

  function LanesRun(commands: seq<Command>): (Lanes, seq<Reply>) {
    if commands == [] then (NO_LANES, [])
    else
      var last := |commands| - 1;
      var (lanes, replies) := LanesRun(commands[..last]);
      var (lanes', reply) := LanesStep(lanes, commands[last]);
      (lanes', replies + [reply])
  }

  // The main result on the queue: over every run it answers exactly as four
  // first-in first-out lanes would, and its array is their concatenation.
  lemma {:induction false} QueueRefinesLanes(commands: seq<Command>)
    ensures LanesRun(commands).0.Valid()
    ensures QueueRun(commands).0 == LanesRun(commands).0.Flat()
    ensures QueueRun(commands).1 == LanesRun(commands).1
  {
    if commands != [] {
      var last := |commands| - 1;
      QueueRefinesLanes(commands[..last]);
      var lanes := LanesRun(commands[..last]).0;
      match commands[last]
      case Enqueue(request) => InsertedIsPush(lanes, request);
      case Pop => HeadIsServed(lanes);
    }
  }

  // What a call accepted, and what it handed out, at one priority.
  function StoredBy(reply: Reply, p: Priority): Lane {
    if reply.Stored? && reply.accepted.priority == p then [reply.accepted] else []
  }

  function PoppedBy(reply: Reply, p: Priority): Lane {
    if reply.Popped? && reply.served.Some? && reply.served.value.priority == p
    then [reply.served.value] else []
  }

  function StoredAt(replies: seq<Reply>, p: Priority): Lane {
    if replies == [] then []
    else StoredAt(replies[..|replies| - 1], p) + StoredBy(replies[|replies| - 1], p)
  }

  function PoppedAt(replies: seq<Reply>, p: Priority): Lane {
    if replies == [] then []
    else PoppedAt(replies[..|replies| - 1], p) + PoppedBy(replies[|replies| - 1], p)
  }

  lemma {:induction false} StepKeepsArrivals(lanes: Lanes, command: Command, p: Priority)
    requires lanes.Valid()
    ensures var (lanes', reply) := LanesStep(lanes, command);
      lanes.At(p) + StoredBy(reply, p) == PoppedBy(reply, p) + lanes'.At(p)
  {
    hide Lanes.Flat;
    hide Lanes.Serve;
    hide Lanes.Valid;
    Unit(lanes.At(p));
    if command.Pop? { ServeKeepsArrivals(lanes, p); }
  }

  lemma {:induction false} ServeKeepsArrivals(lanes: Lanes, p: Priority)
    requires lanes.Valid()
    ensures var (rest, served) := lanes.Serve();
      lanes.At(p) == PoppedBy(Popped(served), p) + rest.At(p)
  {
    var Lanes(critical, high, normal, low) := lanes;
    Unit(lanes.At(p));
    if critical != [] { HeadAndTail(critical); }
    else if high != [] { HeadAndTail(high); }
    else if normal != [] { HeadAndTail(normal); }
    else if low != [] { HeadAndTail(low); }
  }

  lemma {:induction false} ArrivalStep(before: seq<Reply>, reply: Reply, p: Priority, lane: Lane, lane': Lane)
    requires StoredAt(before, p) == PoppedAt(before, p) + lane
    requires lane + StoredBy(reply, p) == PoppedBy(reply, p) + lane'
    ensures StoredAt(before + [reply], p) == PoppedAt(before + [reply], p) + lane'
  {
    hide StoredBy;
    hide PoppedBy;
    assert (before + [reply])[..|before|] == before;
    assert StoredAt(before + [reply], p) == PoppedAt(before, p) + (lane + StoredBy(reply, p));
  }

  lemma {:induction false} NoneWaiting(p: Priority)
    ensures NO_LANES.Valid() && NO_LANES.At(p) == []
  {}

  lemma {:induction false} LanesArrivalOrder(commands: seq<Command>, p: Priority)
    ensures var (lanes, replies) := LanesRun(commands);
      lanes.Valid() && StoredAt(replies, p) == PoppedAt(replies, p) + lanes.At(p)
  {
    QueueRefinesLanes(commands);
    hide QueueRun;
    hide LanesStep;
    hide Lanes.Valid;
    hide Lanes.At;
    if commands == [] {
      NoneWaiting(p);
    } else {
      var last := |commands| - 1;
      LanesArrivalOrder(commands[..last], p);
      var (lanes, before) := LanesRun(commands[..last]);
      var (lanes', reply) := LanesStep(lanes, commands[last]);
      StepKeepsArrivals(lanes, commands[last], p);
      ArrivalStep(before, reply, p, lanes.At(p), lanes'.At(p));
    }
  }

  // The waiting requests of one priority, in queue order.
  function AtPriority(queue: seq<DaliRequest>, p: Priority): Lane {
    if queue == [] then []
    else (if queue[0].priority == p then [queue[0]] else []) + AtPriority(queue[1..], p)
  }

  lemma {:induction false} AtPriorityConcat(x: seq<DaliRequest>, y: seq<DaliRequest>, p: Priority)
    ensures AtPriority(x + y, p) == AtPriority(x, p) + AtPriority(y, p)
  {
    if x == [] {
      assert x + y == y;
    } else {
      AtPriorityConcat(x[1..], y, p);
      assert (x + y)[0] == x[0] && (x + y)[1..] == x[1..] + y;
      var head := if x[0].priority == p then [x[0]] else [];
      assert AtPriority(x + y, p) == head + (AtPriority(x[1..], p) + AtPriority(y, p));
      Associative(head, AtPriority(x[1..], p), AtPriority(y, p));
    }
  }

  lemma {:induction false} AtPriorityUniform(lane: Lane, own: Priority, p: Priority)
    requires forall i :: 0 <= i < |lane| ==> lane[i].priority == own
    ensures AtPriority(lane, p) == if p == own then lane else []
  {
    if lane != [] { AtPriorityUniform(lane[1..], own, p); }
  }

  lemma {:induction false} LaneIsAtPriority(lanes: Lanes, p: Priority)
    requires lanes.Valid()
    ensures AtPriority(lanes.Flat(), p) == lanes.At(p)
  {
    var Lanes(critical, high, normal, low) := lanes;
    AtPriorityUniform(critical, 0, p);
    AtPriorityUniform(high, 1, p);
    AtPriorityUniform(normal, 2, p);
    AtPriorityUniform(low, 3, p);
    hide AtPriority;
    hide Lanes.Valid;
    AtPriorityConcat(critical, high, p);
    AtPriorityConcat(critical + high, normal, p);
    AtPriorityConcat(critical + high + normal, low, p);
    Unit(lanes.At(p));
    Unit<DaliRequest>([]);
  }

  // Nothing is lost, duplicated or overtaken: at each priority the requests handed
  // out, followed by those still waiting, are those accepted, in arrival order.
  lemma {:induction false} ArrivalOrder(commands: seq<Command>, p: Priority)
    ensures var (queue, replies) := QueueRun(commands);
      StoredAt(replies, p) == PoppedAt(replies, p) + AtPriority(queue, p)
  {
    hide *;
    QueueRefinesLanes(commands);
    LanesArrivalOrder(commands, p);
    LaneIsAtPriority(LanesRun(commands).0, p);
  }

  predicate Sorted(queue: seq<DaliRequest>) {
    forall i, j :: 0 <= i < j < |queue| ==> queue[i].priority <= queue[j].priority
  }

  lemma {:induction false} InsertedSorted(queue: seq<DaliRequest>, request: DaliRequest)
    requires Sorted(queue)
    ensures Sorted(Inserted(queue, request))
  {
    hide InsertionPoint;
  }

  // The array is always sorted by priority.
  lemma {:induction false} AlwaysSorted(commands: seq<Command>)
    ensures var queue := QueueRun(commands).0; |queue| <= 64 && Sorted(queue)
  {
    hide Inserted;
    if commands != [] {
      var last := |commands| - 1;
      AlwaysSorted(commands[..last]);
      var queue := QueueRun(commands[..last]).0;
      match commands[last]
      case Enqueue(request) => InsertedSorted(queue, request);
      case Pop =>
    }
  }
}
