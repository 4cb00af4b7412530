/**
  One subscriber's bounded queue (events.rs, SubscriberQueue and EventStream): overflow
  evicts the oldest entry, and the hole is reported later by one marker.
 */
module SubscriberQueues {
  import opened Common

  /** JSON parameters up to their encoding; a value serde cannot encode is `Unencodable`. */
  datatype JsonValue = Encodable(bytes: seq<Byte>) | Unencodable

  function ToVec(params: JsonValue): Option<seq<Byte>> {
    if params.Encodable? then Some(params.bytes) else None
  }

  function FromSlice(bytes: seq<Byte>): JsonValue {
    Encodable(bytes)
  }

  datatype Event = Event(name: string, seqNo: nat, session: Option<string>, params: JsonValue)

  const EVENTS_DROPPED := "events.dropped"

  /** What a queue holds: a published event, or the synthetic hole marker. */
  datatype Item =
    | Published(event: Event)
    | Marker(dropped: nat, fromSeq: nat, toSeq: nat)
  {
    /** A marker's sequence number is 0, outside the published space. */
    function Seq(): nat {
      if Published? then event.seqNo else 0
    }
  }

  datatype EventFilter = EventFilter(sessions: Option<set<string>>, kinds: Option<set<string>>) {
    predicate Admits(event: Event) {
      if event.name == EVENTS_DROPPED then true
      else if kinds.Some? && event.name !in kinds.value then false
      else if sessions.Some? then event.session.Some? && event.session.value in sessions.value
      else true
    }
  }

  /** An absent or empty list means "no restriction". */
  function NewFilter(sessions: Option<seq<string>>, kinds: Option<seq<string>>): EventFilter {
    EventFilter(Normalize(sessions), Normalize(kinds))
  }

  function Normalize(list: Option<seq<string>>): Option<set<string>> {
    if list.None? || |list.value| == 0 then None else Some(set name | name in list.value)
  }

  /** A list is listed if it is given and not empty. */
  predicate Restricts(list: Option<seq<string>>) {
    list.Some? && list.value != []
  }

  /** What a filter lets through, in terms of the lists it was made from. */
  lemma FilterAdmits(sessions: Option<seq<string>>, kinds: Option<seq<string>>, e: Event)
    ensures NewFilter(sessions, kinds).Admits(e) <==>
              || e.name == EVENTS_DROPPED
              || ((Restricts(kinds) ==> e.name in kinds.value)
                  && (Restricts(sessions) ==> e.session.Some? && e.session.value in sessions.value))
  {
  }

  datatype QueueState = QueueState(
    queue: seq<Item>, filter: EventFilter, capacity: nat,
    dropped: nat, firstDropped: nat, lastDropped: nat, closed: bool)

  function Empty(filter: EventFilter, capacity: nat): QueueState {
    QueueState([], filter, capacity, 0, 0, 0, false)
  }

  predicate Accepts(q: QueueState, e: Event) {
    !q.closed && q.filter.Admits(e)
  }

  /** The entries a push evicts (none or one). */
  function Evicted(q: QueueState, e: Event): seq<Item> {
    if Accepts(q, e) && |q.queue| >= q.capacity && q.queue != [] then [q.queue[0]] else []
  }

  /** The entries a push appends: an owed marker when there is room, then the event. */
  function Appended(q: QueueState, e: Event): seq<Item> {
    if !Accepts(q, e) then []
    else if |q.queue| < q.capacity && q.dropped > 0
    then [Marker(q.dropped, q.firstDropped, q.lastDropped), Published(e)]
    else [Published(e)]
  }

  function Pushed(q: QueueState, e: Event): QueueState {
    if !Accepts(q, e) then q
    else if |q.queue| >= q.capacity then
      if q.queue == [] then q.(queue := [Published(e)])
      else
        var seqNo := q.queue[0].Seq();
        q.(queue := q.queue[1..] + [Published(e)],
           dropped := q.dropped + 1,
           firstDropped := if q.dropped == 0 then seqNo else q.firstDropped,
           lastDropped := seqNo)
    else if q.dropped > 0 then
      q.(queue := q.queue + [Marker(q.dropped, q.firstDropped, q.lastDropped), Published(e)],
         dropped := 0)
    else q.(queue := q.queue + [Published(e)])
  }

  function Popped(q: QueueState): QueueState {
    if q.queue == [] then q else q.(queue := q.queue[1..])
  }

  /** The queue object shared between the bus and its stream. */
  class SubscriberQueue {
    var queue: seq<Item>
    var filter: EventFilter
    var capacity: nat
    var dropped: nat
    var firstDropped: nat
    var lastDropped: nat
    var closed: bool

    function State(): QueueState
      reads this
    {
      QueueState(queue, filter, capacity, dropped, firstDropped, lastDropped, closed)
    }

    constructor (filter: EventFilter, capacity: nat)
      ensures State() == Empty(filter, capacity)
    {
      this.filter, this.capacity := filter, capacity;
      queue, dropped, firstDropped, lastDropped, closed := [], 0, 0, 0, false;
    }

    method Push(event: Event)
      modifies this
      ensures State() == Pushed(old(State()), event)
    {
      if closed || !filter.Admits(event) {
        return;
      }
      if |queue| >= capacity {
        if queue != [] {
          var evicted := queue[0];
          queue := queue[1..];
          if dropped == 0 {
            firstDropped := evicted.Seq();
          }
          lastDropped := evicted.Seq();
          dropped := dropped + 1;
        }
      } else if dropped > 0 {
        var marker := Marker(dropped, firstDropped, lastDropped);
        dropped := 0;
        queue := queue + [marker];
      }
      queue := queue + [Published(event)];
    }

    /** An entry already queued, without waiting. */
    method TryRecv() returns (item: Option<Item>)
      modifies this
      ensures State() == Popped(old(State()))
      ensures item == if old(queue) == [] then None else Some(old(queue)[0])
    {
      if queue == [] {
        return None;
      }
      item := Some(queue[0]);
      queue := queue[1..];
    }

    /** The stream's half of unsubscribing. */
    method Close()
      modifies this
      ensures State() == old(State()).(closed := true)
    {
      closed := true;
    }
  }

  // ---------------------------------------------------------------- histories

  datatype Op = DoPush(event: Event) | DoPop | DoClose

  /** A queue with its whole history. */
  datatype History = History(
    q: QueueState,
    entered: seq<Item>,   // admitted pushes and inserted markers, in order
    left: seq<Item>,      // popped or evicted entries, in order
    popped: seq<Item>,
    evicted: seq<Item>,
    markers: seq<Item>)   // every marker ever inserted

  function Step(h: History, op: Op): History {
    match op
    case DoPush(e) =>
      h.(q := Pushed(h.q, e),
         entered := h.entered + Appended(h.q, e),
         left := h.left + Evicted(h.q, e),
         evicted := h.evicted + Evicted(h.q, e),
         markers := h.markers + (if |Appended(h.q, e)| == 2 then [Appended(h.q, e)[0]] else []))
    case DoPop =>
      if h.q.queue == [] then h
      else h.(q := Popped(h.q), left := h.left + [h.q.queue[0]], popped := h.popped + [h.q.queue[0]])
    case DoClose => h.(q := h.q.(closed := true))
  }

  function Run(filter: EventFilter, capacity: nat, ops: seq<Op>): History {
    if ops == [] then History(Empty(filter, capacity), [], [], [], [], [])
    else Step(Run(filter, capacity, ops[..|ops| - 1]), ops[|ops| - 1])
  }

  function SumDropped(markers: seq<Item>): nat {
    if markers == [] then 0
    else SumDropped(markers[..|markers| - 1]) +
         (if markers[|markers| - 1].Marker? then markers[|markers| - 1].dropped else 0)
  }

  /** `marker` reports exactly the evictions `burst`: their number, the first and the last. */
  predicate Reports(marker: Item, burst: seq<Item>) {
    marker.Marker? && burst != [] && marker.dropped == |burst| &&
    marker.fromSeq == burst[0].Seq() && marker.toSeq == burst[|burst| - 1].Seq()
  }

  /** The evictions reported by marker `i`, when the markers share out `evicted` in order. */
  function Burst(h: History, i: nat): seq<Item> {
    if i >= |h.markers| then []
    else
      var lo, hi := SumDropped(h.markers[..i]), SumDropped(h.markers[..i + 1]);
      if lo <= hi <= |h.evicted| then h.evicted[lo..hi] else []
  }

  /** What entered is what left followed by what is queued, within one slot of the capacity. */
  ghost predicate Balanced(h: History) {
    && h.entered == h.left + h.q.queue
    && |h.left| == |h.popped| + |h.evicted|
    && (h.q.capacity >= 1 ==> |h.q.queue| <= h.q.capacity + 1)
  }

  /** Emitted markers and the running counter count every eviction; the counter's hole is exact. */
  ghost predicate Counted(h: History) {
    && SumDropped(h.markers) + h.q.dropped == |h.evicted|
    && (h.q.dropped > 0 ==> Reports(Marker(h.q.dropped, h.q.firstDropped, h.q.lastDropped),
                                    h.evicted[SumDropped(h.markers)..]))
  }

  ghost predicate Reported(h: History) {
    forall i :: 0 <= i < |h.markers| ==> Reports(h.markers[i], Burst(h, i))
  }

  ghost predicate Conserved(h: History) {
    Balanced(h) && Counted(h) && Reported(h)
  }

  lemma {:induction false} SumDroppedMonotone(markers: seq<Item>, i: nat)
    requires i <= |markers|
    ensures SumDropped(markers[..i]) <= SumDropped(markers)
    decreases |markers| - i
  {
    if i == |markers| {
      assert markers[..i] == markers;
    } else {
      var front := markers[..|markers| - 1];
      SumDroppedMonotone(front, i);
      assert front[..i] == markers[..i];
    }
  }

  /** A later eviction or marker leaves the bursts already reported as they are. */
  lemma BurstStable(h: History, h': History, i: nat)
    requires i < |h.markers| && h.markers <= h'.markers && h.evicted <= h'.evicted
    requires SumDropped(h.markers) <= |h.evicted|
    ensures Burst(h', i) == Burst(h, i)
  {
    assert h'.markers[..i] == h.markers[..i] && h'.markers[..i + 1] == h.markers[..i + 1];
    SumDroppedMonotone(h.markers, i);
    SumDroppedMonotone(h.markers, i + 1);
  }

  /** A push moves what it evicts out and appends. */
  lemma PushMoves(q: QueueState, e: Event)
    ensures Evicted(q, e) + Pushed(q, e).queue == q.queue + Appended(q, e)
    ensures q.capacity >= 1 && |q.queue| <= q.capacity + 1 ==> |Pushed(q, e).queue| <= q.capacity + 1
    ensures Pushed(q, e).capacity == q.capacity && Pushed(q, e).filter == q.filter
  {
  }

  lemma BalancedStep(h: History, op: Op)
    requires Balanced(h)
    ensures Balanced(Step(h, op))
  {
    var h' := Step(h, op);
    match op
    case DoPop =>
      if h.q.queue != [] {
        assert h'.left + h'.q.queue == h.left + h.q.queue;
      }
    case DoClose =>
    case DoPush(e) =>
      PushMoves(h.q, e);
      Regroup(h.left, Evicted(h.q, e), h'.q.queue, h.q.queue, Appended(h.q, e));
  }

  lemma Regroup(front: seq<Item>, a: seq<Item>, b: seq<Item>, c: seq<Item>, d: seq<Item>)
    requires a + b == c + d
    ensures (front + a) + b == (front + c) + d
  {
    assert front + (a + b) == (front + a) + b;
    assert front + (c + d) == (front + c) + d;
  }

  lemma CountedStep(h: History, op: Op)
    requires Counted(h)
    ensures Counted(Step(h, op))
  {
    if op.DoPush? {
      var e, base := op.event, SumDropped(h.markers);
      var h' := Step(h, op);
      if |Appended(h.q, e)| == 2 {
        assert (h.markers + [Appended(h.q, e)[0]])[..|h.markers|] == h.markers;
        assert h'.evicted == h.evicted;
      } else if Evicted(h.q, e) != [] {
        assert h'.markers == h.markers;
        assert h'.evicted[base..] == h.evicted[base..] + Evicted(h.q, e);
      } else {
        assert h'.markers == h.markers && h'.evicted == h.evicted;
      }
    }
  }

  lemma ReportedStep(h: History, op: Op)
    requires Counted(h) && Reported(h)
    ensures Reported(Step(h, op))
  {
    var h' := Step(h, op);
    forall i | 0 <= i < |h'.markers| ensures Reports(h'.markers[i], Burst(h', i)) {
      if i < |h.markers| {
        BurstStable(h, h', i);
      } else {
        NewMarkerReports(h, op.event);
      }
    }
  }

  lemma NewMarkerReports(h: History, e: Event)
    requires Counted(h) && |Appended(h.q, e)| == 2
    ensures Reports(Appended(h.q, e)[0], Burst(Step(h, DoPush(e)), |h.markers|))
  {
    var h' := Step(h, DoPush(e));
    assert (h.markers + [Appended(h.q, e)[0]])[..|h.markers|] == h.markers;
    assert h'.markers[..|h.markers|] == h.markers;
    assert h'.markers[..|h.markers| + 1] == h'.markers;
    assert h'.evicted == h.evicted;
    assert Burst(h', |h.markers|) == h.evicted[SumDropped(h.markers)..];
  }

  lemma ConservedStep(h: History, op: Op)
    requires Conserved(h)
    ensures Conserved(Step(h, op))
  {
    BalancedStep(h, op);
    CountedStep(h, op);
    ReportedStep(h, op);
  }

  lemma LimitsKept(h: History, op: Op)
    ensures Step(h, op).q.capacity == h.q.capacity && Step(h, op).q.filter == h.q.filter
  {
    if op.DoPush? {
      PushMoves(h.q, op.event);
    }
  }

  /**
    Conservation over every run: nothing is lost unaccounted. What entered is what left followed
    by what is queued; the queue never exceeds its capacity by more than the marker's slot; the
    markers ever emitted plus the running counter count every eviction, and each marker names the
    first and last entry of exactly the burst it stands for.
   */
  lemma {:induction false} QueueConservation(filter: EventFilter, capacity: nat, ops: seq<Op>)
    ensures Conserved(Run(filter, capacity, ops))
    ensures Run(filter, capacity, ops).q.capacity == capacity
    ensures Run(filter, capacity, ops).q.filter == filter
  {
    if ops != [] {
      QueueConservation(filter, capacity, ops[..|ops| - 1]);
      var h, op := Run(filter, capacity, ops[..|ops| - 1]), ops[|ops| - 1];
      ConservedStep(h, op);
      LimitsKept(h, op);
    }
  }

  /** The events pushed to an open queue that its filter admits. */
  function Offered(filter: EventFilter, ops: seq<Op>): seq<Event> {
    if ops == [] then []
    else
      var front, op := ops[..|ops| - 1], ops[|ops| - 1];
      Offered(filter, front) + if op.DoPush? && DoClose !in front && filter.Admits(op.event) then [op.event] else []
  }

  function EventsOf(items: seq<Item>): seq<Event> {
    if items == [] then []
    else EventsOf(items[..|items| - 1]) + if items[|items| - 1].Published? then [items[|items| - 1].event] else []
  }

  lemma EventsOfSnoc(items: seq<Item>, x: Item)
    ensures EventsOf(items + [x]) == EventsOf(items) + if x.Published? then [x.event] else []
  {
    assert (items + [x])[..|items|] == items;
  }

  lemma EntersOnPush(h: History, e: Event)
    ensures EventsOf(Step(h, DoPush(e)).entered)
         == EventsOf(h.entered) + if !h.q.closed && h.q.filter.Admits(e) then [e] else []
  {
    var more := Appended(h.q, e);
    if |more| == 1 {
      EventsOfSnoc(h.entered, more[0]);
      assert h.entered + more == h.entered + [more[0]];
    } else if |more| == 2 {
      EventsOfSnoc(h.entered, more[0]);
      EventsOfSnoc(h.entered + [more[0]], more[1]);
      assert h.entered + more == h.entered + [more[0]] + [more[1]];
    } else {
      assert h.entered + more == h.entered;
    }
  }

  lemma EntersStep(h: History, op: Op)
    ensures EventsOf(Step(h, op).entered)
         == EventsOf(h.entered) + if op.DoPush? && !h.q.closed && h.q.filter.Admits(op.event) then [op.event] else []
    ensures Step(h, op).q.closed <==> h.q.closed || op == DoClose
  {
    if op.DoPush? {
      EntersOnPush(h, op.event);
    }
  }

  /** What enters a queue: every admitted event pushed before it was closed, once and in order, and no other. */
  lemma {:induction false} AdmittedEnter(filter: EventFilter, capacity: nat, ops: seq<Op>)
    ensures EventsOf(Run(filter, capacity, ops).entered) == Offered(filter, ops)
    ensures Run(filter, capacity, ops).q.closed <==> DoClose in ops
  {
    if ops != [] {
      var front, op := ops[..|ops| - 1], ops[|ops| - 1];
      AdmittedEnter(filter, capacity, front);
      assert Run(filter, capacity, front).q.filter == filter by {
        QueueConservation(filter, capacity, front);
      }
      assert ops == front + [op];
      EntersStep(Run(filter, capacity, front), op);
    }
  }

  // ------------------------------------------------------- what a marker's range encloses

  /** Pushes arrive with increasing sequence numbers, from 1 on. */
  ghost predicate InOrder(ops: seq<Op>) {
    && (forall i :: 0 <= i < |ops| && ops[i].DoPush? ==> ops[i].event.seqNo >= 1)
    && forall i, j :: 0 <= i < j < |ops| && ops[i].DoPush? && ops[j].DoPush? ==>
         ops[i].event.seqNo < ops[j].event.seqNo
  }

  ghost predicate Ordered(items: seq<Item>) {
    && (forall i :: 0 <= i < |items| && items[i].Published? ==> items[i].Seq() >= 1)
    && forall i, j :: 0 <= i < j < |items| && items[i].Published? && items[j].Published? ==>
         items[i].Seq() < items[j].Seq()
  }

  ghost predicate Below(items: seq<Item>, ops: seq<Op>) {
    forall item :: item in items && item.Published? ==> DoPush(item.event) in ops
  }

  /** A push moves evicted entries over and appends. */
  lemma PushAppends(h: History, e: Event)
    ensures var h' := Step(h, DoPush(e));
            h'.evicted + h'.q.queue == h.evicted + h.q.queue + Appended(h.q, e)
  {
    PushMoves(h.q, e);
    Regroup(h.evicted, Evicted(h.q, e), Pushed(h.q, e).queue, h.q.queue, Appended(h.q, e));
  }

  lemma OrderedPush(h: History, e: Event)
    requires Ordered(h.evicted + h.q.queue) && e.seqNo >= 1
    requires forall x :: x in h.evicted + h.q.queue && x.Published? ==> x.Seq() < e.seqNo
    ensures Ordered(Step(h, DoPush(e)).evicted + Step(h, DoPush(e)).q.queue)
  {
    PushAppends(h, e);
  }

  lemma PopInOrder(h: History)
    requires Ordered(h.evicted + h.q.queue)
    ensures var h' := Step(h, DoPop);
            && Ordered(h'.evicted + h'.q.queue)
            && forall x :: x in h'.evicted + h'.q.queue ==> x in h.evicted + h.q.queue
  {
    if h.q.queue != [] {
      var before := h.evicted + h.q.queue;
      var n, rest := |h.evicted|, h.evicted + Step(h, DoPop).q.queue;
      assert forall k :: 0 <= k < |rest| ==> rest[k] == before[if k < n then k else k + 1];
    }
  }

  lemma PushBelow(h: History, ops: seq<Op>, e: Event)
    requires Below(h.evicted + h.q.queue, ops)
    ensures var h' := Step(h, DoPush(e)); Below(h'.evicted + h'.q.queue, ops + [DoPush(e)])
  {
    PushAppends(h, e);
    assert (ops + [DoPush(e)])[|ops|] == DoPush(e);
  }

  lemma PushInOrder(h: History, ops: seq<Op>, e: Event)
    requires InOrder(ops + [DoPush(e)]) && Ordered(h.evicted + h.q.queue) && Below(h.evicted + h.q.queue, ops)
    ensures var h' := Step(h, DoPush(e));
            Ordered(h'.evicted + h'.q.queue) && Below(h'.evicted + h'.q.queue, ops + [DoPush(e)])
  {
    var longer := ops + [DoPush(e)];
    assert longer[|ops|] == DoPush(e);
    forall x | x in h.evicted + h.q.queue && x.Published? ensures x.Seq() < e.seqNo {
      var i :| 0 <= i < |ops| && ops[i] == DoPush(x.event);
      assert longer[i] == ops[i];
    }
    OrderedPush(h, e);
    PushBelow(h, ops, e);
  }

  lemma {:induction false} EvictedInOrder(filter: EventFilter, capacity: nat, ops: seq<Op>)
    requires InOrder(ops)
    ensures var h := Run(filter, capacity, ops);
            Ordered(h.evicted + h.q.queue) && Below(h.evicted + h.q.queue, ops)
  {
    if ops == [] {
    } else {
      var front, op := ops[..|ops| - 1], ops[|ops| - 1];
      assert front + [op] == ops;
      EvictedInOrder(filter, capacity, front);
      var h := Run(filter, capacity, front);
      match op
      case DoPop =>
        PopInOrder(h);
      case DoPush(e) =>
        PushInOrder(h, front, e);
      case DoClose =>
    }
  }

  /** The range a marker carries encloses every event of its burst. */
  ghost predicate Encloses(marker: Item, burst: seq<Item>) {
    marker.Marker? && forall item :: item in burst && item.Published? ==>
      marker.fromSeq <= item.Seq() <= marker.toSeq
  }

  /** The last eviction was of an event, or none was. */
  ghost predicate EndsInEvent(burst: seq<Item>) {
    burst != [] && (burst[|burst| - 1].Published? || forall item :: item in burst ==> item.Marker?)
  }

  lemma RangeOfReport(marker: Item, burst: seq<Item>)
    requires Reports(marker, burst) && Ordered(burst)
    ensures Encloses(marker, burst) <==> EndsInEvent(burst)
  {
    if burst[|burst| - 1].Published? {
      forall item | item in burst && item.Published?
        ensures marker.fromSeq <= item.Seq() <= marker.toSeq
      {
        var k :| 0 <= k < |burst| && burst[k] == item;
      }
    }
  }

  /** A burst is a slice of an ordered history, so it is ordered itself. */
  lemma BurstOrdered(h: History, i: nat)
    requires i < |h.markers| && Counted(h) && Ordered(h.evicted + h.q.queue)
    ensures Ordered(Burst(h, i))
  {
    var lo := SumDropped(h.markers[..i]);
    SumDroppedMonotone(h.markers, i + 1);
    assert forall k :: 0 <= k < |Burst(h, i)| ==> Burst(h, i)[k] == (h.evicted + h.q.queue)[lo + k];
  }

  /**
    With in-order pushes a marker's range encloses its burst exactly when the burst ends in an
    event (or holds none): an earlier marker evicted last has sequence number 0.
   */
  lemma MarkerEnclosesItsBurst(filter: EventFilter, capacity: nat, ops: seq<Op>, i: nat)
    requires InOrder(ops) && i < |Run(filter, capacity, ops).markers|
    ensures var h := Run(filter, capacity, ops);
            var burst := Burst(h, i);
            && h.markers[i].Marker? && burst != []
            && (Encloses(h.markers[i], burst) <==> EndsInEvent(burst))
  {
    var h := Run(filter, capacity, ops);
    assert Counted(h) && Reported(h) by {
      QueueConservation(filter, capacity, ops);
    }
    assert Ordered(h.evicted + h.q.queue) by {
      EvictedInOrder(filter, capacity, ops);
    }
    BurstEnclosed(h, i);
  }

  lemma BurstEnclosed(h: History, i: nat)
    requires Counted(h) && Reported(h) && Ordered(h.evicted + h.q.queue) && i < |h.markers|
    ensures var burst := Burst(h, i);
            && h.markers[i].Marker? && burst != []
            && (Encloses(h.markers[i], burst) <==> EndsInEvent(burst))
  {
    var burst := Burst(h, i);
    assert Reports(h.markers[i], burst);
    BurstOrdered(h, i);
    RangeOfReport(h.markers[i], burst);
  }

  lemma RunSnoc(filter: EventFilter, capacity: nat, ops: seq<Op>, op: Op)
    ensures Run(filter, capacity, ops + [op]) == Step(Run(filter, capacity, ops), op)
  {
    assert (ops + [op])[..|ops|] == ops;
  }

  function E(n: nat): Event {
    Event("e", n, None, Unencodable)
  }

  function P(n: nat): Item {
    Published(E(n))
  }

  const ANY := EventFilter(None, None)

  function Queue2(queue: seq<Item>, dropped: nat, first: nat, last: nat): QueueState {
    QueueState(queue, ANY, 2, dropped, first, last, false)
  }

  lemma Extend(ops: seq<Op>, op: Op, q: QueueState, markers: seq<Item>)
    requires Step(Run(ANY, 2, ops), op).q == q && Step(Run(ANY, 2, ops), op).markers == markers
    ensures Run(ANY, 2, ops + [op]).q == q && Run(ANY, 2, ops + [op]).markers == markers
  {
    RunSnoc(ANY, 2, ops, op);
  }

  /** Five operations on a queue of two leave its first marker queued behind event 3. */
  lemma MarkerQueuedBehindEvent() returns (ops: seq<Op>)
    ensures ops == [DoPush(E(1)), DoPush(E(2)), DoPush(E(3)), DoPop, DoPush(E(4))]
    ensures Run(ANY, 2, ops).q == Queue2([P(3), Marker(1, 1, 1), P(4)], 0, 1, 1)
    ensures Run(ANY, 2, ops).markers == [Marker(1, 1, 1)]
  {
    ops := [];
    Extend(ops, DoPush(E(1)), Queue2([P(1)], 0, 0, 0), []);
    ops := ops + [DoPush(E(1))];
    Extend(ops, DoPush(E(2)), Queue2([P(1), P(2)], 0, 0, 0), []);
    ops := ops + [DoPush(E(2))];
    Extend(ops, DoPush(E(3)), Queue2([P(2), P(3)], 1, 1, 1), []);
    ops := ops + [DoPush(E(3))];
    Extend(ops, DoPop, Queue2([P(3)], 1, 1, 1), []);
    ops := ops + [DoPop];
    Extend(ops, DoPush(E(4)), Queue2([P(3), Marker(1, 1, 1), P(4)], 0, 1, 1), [Marker(1, 1, 1)]);
    ops := ops + [DoPush(E(4))];
  }

  /** Two more overflows evict event 3 and then the marker. */
  lemma MarkerEvictedLast() returns (ops: seq<Op>)
    ensures ops == [DoPush(E(1)), DoPush(E(2)), DoPush(E(3)), DoPop, DoPush(E(4)), DoPush(E(5)), DoPush(E(6))]
    ensures Run(ANY, 2, ops).q == Queue2([P(4), P(5), P(6)], 2, 3, 0)
    ensures Run(ANY, 2, ops).markers == [Marker(1, 1, 1)]
  {
    ops := MarkerQueuedBehindEvent();
    Extend(ops, DoPush(E(5)), Queue2([Marker(1, 1, 1), P(4), P(5)], 1, 3, 3), [Marker(1, 1, 1)]);
    ops := ops + [DoPush(E(5))];
    Extend(ops, DoPush(E(6)), Queue2([P(4), P(5), P(6)], 2, 3, 0), [Marker(1, 1, 1)]);
    ops := ops + [DoPush(E(6))];
  }

  lemma ScriptInOrder(ops: seq<Op>)
    requires ops == [DoPush(E(1)), DoPush(E(2)), DoPush(E(3)), DoPop, DoPush(E(4)), DoPush(E(5)), DoPush(E(6)),
                     DoPop, DoPop, DoPush(E(7))]
    ensures InOrder(ops)
  {
  }

  /** The next marker then reads "2 dropped, from 3 to 0", which does not enclose event 3. */
  lemma EvictedMarkerGarblesRange() returns (ops: seq<Op>)
    ensures InOrder(ops) && Run(ANY, 2, ops).markers == [Marker(1, 1, 1), Marker(2, 3, 0)]
  {
    ops := MarkerEvictedLast();
    Extend(ops, DoPop, Queue2([P(5), P(6)], 2, 3, 0), [Marker(1, 1, 1)]);
    ops := ops + [DoPop];
    Extend(ops, DoPop, Queue2([P(6)], 2, 3, 0), [Marker(1, 1, 1)]);
    ops := ops + [DoPop];
    Extend(ops, DoPush(E(7)), Queue2([P(6), Marker(2, 3, 0), P(7)], 0, 3, 0), [Marker(1, 1, 1), Marker(2, 3, 0)]);
    ops := ops + [DoPush(E(7))];
    ScriptInOrder(ops);
  }
}
