/**
  Resuming an event stream across reconnects: the client half (client.rs, subscribe_to_events and
  route_message) against the bus. Publishers are serialised and every payload encodes.
 */
module Resume {
  import opened Common
  import opened SubscriberQueues
  import opened EventBuses

  /** One connection: the server-side queue and the messages written but not yet routed. */
  datatype Link = Link(start: nat, q: QueueState, wire: seq<Item>)

  datatype World = World(
    count: nat, bytes: nat, capacity: nat, filter: EventFilter,
    log: seq<Event>, link: Option<Link>, lastSeq: nat, received: seq<Item>)

  datatype Action =
    | Publish(name: string, bytes: seq<Byte>, session: Option<string>)
    | Connect
    | Disconnect      // whatever is queued or in flight is lost
    | Write           // the server moves one queued event to the socket
    | Route           // the client routes one message

  function Next(w: World, name: string, bytes: seq<Byte>, session: Option<string>): Event {
    Event(name, |w.log| + 1, session, Encodable(bytes))
  }

  function Ring(w: World): seq<Archived> {
    Retained(Archive(w.log), w.count, w.bytes)
  }

  /** `since_seq` is sent only once some event has been received. */
  function Since(w: World): Option<nat> {
    if w.lastSeq != 0 then Some(w.lastSeq) else None
  }

  /** How many events have left the ring. */
  function Gone(w: World): nat {
    if |Ring(w)| <= |w.log| then |w.log| - |Ring(w)| else 0
  }

  /** A new link carries only events numbered above this. */
  function StartOf(w: World): nat {
    if w.lastSeq == 0 then |w.log| else if Gone(w) > w.lastSeq then Gone(w) else w.lastSeq
  }

  predicate Enabled(w: World, a: Action) {
    match a
    case Publish(_, _, _) => true
    case Connect => w.link.None?
    case Disconnect => w.link.Some?
    case Write => w.link.Some? && w.link.value.q.queue != []
    case Route => w.link.Some? && w.link.value.wire != []
  }

  function Apply(w: World, a: Action): World
    requires Enabled(w, a)
  {
    match a
    case Publish(name, bytes, session) =>
      var e := Next(w, name, bytes, session);
      var w' := w.(log := w.log + [e]);
      if w.link.None? then w' else w'.(link := Some(w.link.value.(q := Pushed(w.link.value.q, e))))
    case Connect =>
      var q := PushAll(Empty(w.filter, w.capacity), ReplayEvents(Ring(w), Since(w)));
      w.(link := Some(Link(StartOf(w), q, [])))
    case Disconnect => w.(link := None)
    case Write =>
      var l := w.link.value;
      w.(link := Some(l.(q := Popped(l.q), wire := l.wire + [l.q.queue[0]])))
    case Route =>
      var l := w.link.value;
      w.(link := Some(l.(wire := l.wire[1..])), received := w.received + [l.wire[0]],
         lastSeq := if l.wire[0].Seq() > w.lastSeq then l.wire[0].Seq() else w.lastSeq)
  }

  ghost predicate IsRun(run: seq<World>, actions: seq<Action>) {
    && |run| == |actions| + 1
    && run[0].log == [] && run[0].link == None && run[0].lastSeq == 0 && run[0].received == []
    && run[0].capacity >= 1
    && forall i :: 0 <= i < |actions| ==> Enabled(run[i], actions[i]) && run[i + 1] == Apply(run[i], actions[i])
  }

  /** The subscriber queue does not overflow, neither by an event nor by a replay. */
  predicate Roomy(w: World, a: Action) {
    && (a.Publish? && w.link.Some? ==> Evicted(w.link.value.q, Next(w, a.name, a.bytes, a.session)) == [])
    && (a.Connect? ==> ReplayFits(w))
  }

  predicate ReplayFits(w: World) {
    |Owed(w.filter, w.log, StartOf(w), |w.log|)| <= w.capacity
  }

  /** On a reconnect the ring still reaches back to the first event not yet received. */
  predicate Covered(w: World, a: Action) {
    a.Connect? && w.lastSeq != 0 ==> |w.log| <= |Ring(w)| + w.lastSeq
  }

  ghost predicate AllRoomy(run: seq<World>, actions: seq<Action>) {
    IsRun(run, actions) && forall i :: 0 <= i < |actions| ==> Roomy(run[i], actions[i])
  }

  ghost predicate AllCovered(run: seq<World>, actions: seq<Action>) {
    IsRun(run, actions) && forall i :: 0 <= i < |actions| ==> Covered(run[i], actions[i])
  }

  // ------------------------------------------------------------ what a client is owed

  ghost predicate LogOk(log: seq<Event>) {
    forall i :: 0 <= i < |log| ==> log[i].seqNo == i + 1 && CanArchive(log[i])
  }

  /** The admitted events numbered above `lo` up to `hi`, in order. */
  function Owed(filter: EventFilter, log: seq<Event>, lo: nat, hi: nat): seq<Item>
    requires hi <= |log|
  {
    if hi <= lo then []
    else Owed(filter, log, lo, hi - 1) + if filter.Admits(log[hi - 1]) then [Published(log[hi - 1])] else []
  }

  lemma {:induction false} OwedSplit(filter: EventFilter, log: seq<Event>, lo: nat, mid: nat, hi: nat)
    requires lo <= mid <= hi <= |log|
    ensures Owed(filter, log, lo, hi) == Owed(filter, log, lo, mid) + Owed(filter, log, mid, hi)
  {
    if mid < hi {
      OwedSplit(filter, log, lo, mid, hi - 1);
    }
  }

  lemma {:induction false} OwedStable(filter: EventFilter, log: seq<Event>, log': seq<Event>, lo: nat, hi: nat)
    requires hi <= |log| && log <= log'
    ensures Owed(filter, log', lo, hi) == Owed(filter, log, lo, hi)
  {
    if lo < hi {
      OwedStable(filter, log, log', lo, hi - 1);
    }
  }

  /** Each owed item is an admitted event of the log, numbered in the interval, in rising order. */
  lemma {:induction false} OwedInLog(filter: EventFilter, log: seq<Event>, lo: nat, hi: nat)
    requires LogOk(log) && hi <= |log|
    ensures forall x :: x in Owed(filter, log, lo, hi) ==>
              x.Published? && x.event in log && filter.Admits(x.event) && lo < x.Seq() <= hi
    ensures Rising(Owed(filter, log, lo, hi))
  {
    if lo < hi {
      OwedInLog(filter, log, lo, hi - 1);
    }
  }

  /** The first owed item splits the interval at its own number. */
  lemma {:induction false} FirstOwed(filter: EventFilter, log: seq<Event>, lo: nat, hi: nat)
    requires LogOk(log) && hi <= |log| && Owed(filter, log, lo, hi) != []
    ensures var x := Owed(filter, log, lo, hi)[0];
            && x.Published? && x.event in log && filter.Admits(x.event) && lo < x.Seq() <= hi
            && Owed(filter, log, lo, x.Seq()) == [x] == Owed(filter, log, x.Seq() - 1, x.Seq())
            && Owed(filter, log, lo, hi) == [x] + Owed(filter, log, x.Seq(), hi)
  {
    if Owed(filter, log, lo, hi - 1) != [] {
      FirstOwed(filter, log, lo, hi - 1);
    } else {
      assert Owed(filter, log, hi - 1, hi) == Owed(filter, log, lo, hi);
    }
  }

  /** A queue with room takes exactly what is owed. */
  lemma {:induction false} PushOwed(filter: EventFilter, capacity: nat, log: seq<Event>, lo: nat, hi: nat)
    requires lo <= hi <= |log| && |Owed(filter, log, lo, hi)| <= capacity
    ensures PushAll(Empty(filter, capacity), log[lo..hi])
         == Empty(filter, capacity).(queue := Owed(filter, log, lo, hi))
  {
    if lo < hi {
      PushOwed(filter, capacity, log, lo, hi - 1);
      assert log[lo..hi] == log[lo..hi - 1] + [log[hi - 1]];
      PushAllSnoc(Empty(filter, capacity), log[lo..hi - 1], log[hi - 1]);
    }
  }

  // ---------------------------------------------------------------- invariant

  function Base(w: World): nat {
    if w.link.Some? && w.link.value.start > w.lastSeq then w.link.value.start else w.lastSeq
  }

  /** What is on its way is exactly the admitted part of the log past the base. */
  ghost predicate InTransit(w: World) {
    w.link.Some? ==>
      var l := w.link.value;
      && l.q.filter == w.filter && l.q.capacity == w.capacity && l.q.dropped == 0 && !l.q.closed
      && Base(w) <= |w.log|
      && l.wire + l.q.queue == Owed(w.filter, w.log, Base(w), |w.log|)
  }

  ghost predicate Rising(items: seq<Item>) {
    forall i, j :: 0 <= i < j < |items| ==> items[i].Seq() < items[j].Seq()
  }

  ghost predicate Sane(w: World) {
    && LogOk(w.log) && w.lastSeq <= |w.log| && w.capacity >= 1
    && (w.received == [] <==> w.lastSeq == 0)
    && (forall x :: x in w.received ==>
          x.Published? && x.event in w.log && w.filter.Admits(x.event) && 1 <= x.Seq() <= w.lastSeq)
    && Rising(w.received)
    && InTransit(w)
  }

  /** The received events are every admitted event between the first and the last of them. */
  ghost predicate Gapless(w: World) {
    w.received != [] ==>
      && 1 <= w.received[0].Seq() <= w.lastSeq <= |w.log|
      && w.received == Owed(w.filter, w.log, w.received[0].Seq() - 1, w.lastSeq)
  }

  // ---------------------------------------------------------------- the replay on connecting

  lemma {:induction false} AfterNumber(log: seq<Event>, k: nat, since: nat)
    requires LogOk(log) && k <= |log| && since <= |log|
    ensures Filter((e: Event) => e.seqNo > since, log[k..]) == log[(if k > since then k else since)..]
    decreases |log| - k
  {
    if k >= since {
      FilterAll((e: Event) => e.seqNo > since, log[k..]);
    } else {
      AfterNumber(log, k + 1, since);
      assert log[k..][0] == log[k] && log[k..][1..] == log[k + 1..];
    }
  }

  lemma ReplaySince(log: seq<Event>, count: nat, bytes: nat, since: nat)
    requires LogOk(log) && since <= |log|
    ensures var ring := Retained(Archive(log), count, bytes);
            |ring| <= |log| &&
            ReplayEvents(ring, Some(since)) == log[(if |log| - |ring| > since then |log| - |ring| else since)..]
  {
    ReplayIsFilteredLog(log, count, bytes, since);
    FilterAll(e => CanArchive(e), log);
    var ring := Retained(Archive(log), count, bytes);
    assert Archivable(log) == log;
    AfterNumber(log, |log| - |ring|, since);
  }

  lemma ReplayIsTail(w: World)
    requires LogOk(w.log) && w.lastSeq <= |w.log|
    ensures |Ring(w)| <= |w.log| && w.lastSeq <= StartOf(w) <= |w.log|
    ensures ReplayEvents(Ring(w), Since(w)) == w.log[StartOf(w)..]
  {
    ReplaySince(w.log, w.count, w.bytes, w.lastSeq);
    if w.lastSeq == 0 {
      assert ReplayEvents(Ring(w), None) == [];
    }
  }

  lemma ConnectInTransit(w: World)
    requires LogOk(w.log) && w.lastSeq <= |w.log| && w.link.None? && ReplayFits(w)
    ensures |Ring(w)| <= |w.log| && w.lastSeq <= StartOf(w) <= |w.log|
    ensures Apply(w, Connect).link.value.q.queue == Owed(w.filter, w.log, StartOf(w), |w.log|)
    ensures InTransit(Apply(w, Connect))
  {
    ReplayIsTail(w);
    PushOwed(w.filter, w.capacity, w.log, StartOf(w), |w.log|);
    assert w.log[StartOf(w)..|w.log|] == ReplayEvents(Ring(w), Since(w));
  }

  lemma {:induction false} OwedLength(filter: EventFilter, log: seq<Event>, lo: nat, hi: nat)
    requires lo <= hi <= |log|
    ensures |Owed(filter, log, lo, hi)| <= hi - lo
  {
    if lo < hi {
      OwedLength(filter, log, lo, hi - 1);
    }
  }

  /** A queue as large as the ring, like the default one, has room for any replay. */
  lemma LargeQueueFitsReplay(w: World)
    requires LogOk(w.log) && w.lastSeq <= |w.log| && w.capacity >= w.count
    ensures ReplayFits(w)
  {
    ReplayIsTail(w);
    RetainedIsSuffix(Archive(w.log), w.count, w.bytes);
    OwedLength(w.filter, w.log, StartOf(w), |w.log|);
  }

  /** Starting later loses exactly what was owed before. */
  lemma OwedFromLater(filter: EventFilter, log: seq<Event>, lo: nat, start: nat)
    requires lo <= start <= |log|
    ensures Owed(filter, log, start, |log|) == Owed(filter, log, lo, |log|) <==> Owed(filter, log, lo, start) == []
  {
    OwedSplit(filter, log, lo, start, |log|);
  }

  /**
    What a reconnect loses, exactly: the new link owes every admitted event after the last one
    received if and only if none of them has left the ring and the rest fit the new queue.
   */
  lemma ReconnectLosesWhatLeftTheRing(run: seq<World>, actions: seq<Action>, i: nat)
    requires IsRun(run, actions) && i < |run| && run[i].link.None? && run[i].lastSeq != 0
    ensures var w := run[i];
            && Gone(w) == |w.log| - |Ring(w)| && w.lastSeq <= |w.log|
            && (Apply(w, Connect).link.value.q.queue == Owed(w.filter, w.log, w.lastSeq, |w.log|)
                <==> Owed(w.filter, w.log, w.lastSeq, Gone(w)) == [] && ReplayFits(w))
  {
    ReceivedRising(run, actions, i);
    ConnectLoses(run[i]);
  }

  lemma ConnectLoses(w: World)
    requires LogOk(w.log) && w.lastSeq <= |w.log| && w.capacity >= 1 && w.link.None? && w.lastSeq != 0
    ensures |Ring(w)| <= |w.log|
    ensures Apply(w, Connect).link.value.q.queue == Owed(w.filter, w.log, w.lastSeq, |w.log|)
            <==> Owed(w.filter, w.log, w.lastSeq, Gone(w)) == [] && ReplayFits(w)
  {
    ReplayIsTail(w);
    OwedFromLater(w.filter, w.log, w.lastSeq, StartOf(w));
    if ReplayFits(w) {
      ConnectInTransit(w);
    } else {
      OwedSplit(w.filter, w.log, w.lastSeq, StartOf(w), |w.log|);
      ConnectFromLog(w);
    }
  }

  // ---------------------------------------------------------------- one step

  lemma PublishInTransit(w: World, a: Action)
    requires Sane(w) && a.Publish? && Roomy(w, a)
    ensures InTransit(Apply(w, a))
  {
    if w.link.Some? {
      var w', l := Apply(w, a), w.link.value;
      var e := Next(w, a.name, a.bytes, a.session);
      OwedStable(w.filter, w.log, w'.log, Base(w), |w.log|);
      var more := if w.filter.Admits(e) then [Published(e)] else [];
      assert Pushed(l.q, e).queue == l.q.queue + more;
      assert l.wire + (l.q.queue + more) == (l.wire + l.q.queue) + more;
    }
  }

  lemma PublishSane(w: World, a: Action)
    requires Sane(w) && a.Publish? && Roomy(w, a)
    ensures Sane(Apply(w, a))
  {
    PublishInTransit(w, a);
  }

  lemma PublishGapless(w: World, a: Action)
    requires LogOk(w.log) && a.Publish? && Gapless(w)
    ensures Gapless(Apply(w, a))
  {
    if w.received != [] {
      OwedStable(w.filter, w.log, Apply(w, a).log, w.received[0].Seq() - 1, w.lastSeq);
    }
  }

  lemma RouteTakesFirstOwed(w: World)
    requires Sane(w) && Enabled(w, Route)
    ensures var x := w.link.value.wire[0];
            && x.Published? && x.event in w.log && w.filter.Admits(x.event) && Base(w) < x.Seq() <= |w.log|
            && Owed(w.filter, w.log, Base(w), x.Seq()) == [x] == Owed(w.filter, w.log, x.Seq() - 1, x.Seq())
            && w.link.value.wire[1..] + w.link.value.q.queue == Owed(w.filter, w.log, x.Seq(), |w.log|)
  {
    var l := w.link.value;
    FirstOwed(w.filter, w.log, Base(w), |w.log|);
    assert (l.wire + l.q.queue)[0] == l.wire[0];
    assert (l.wire + l.q.queue)[1..] == l.wire[1..] + l.q.queue;
  }

  lemma RouteKeepsGapless(w: World)
    requires Sane(w) && Enabled(w, Route) && Gapless(w) && NoGapAhead(w)
    ensures Gapless(Apply(w, Route))
  {
    RouteTakesFirstOwed(w);
    var x, w' := w.link.value.wire[0], Apply(w, Route);
    assert w'.received == w.received + [x] && w'.lastSeq == x.Seq();
    if w.received != [] {
      assert Base(w) == w.lastSeq && w'.received[0] == w.received[0];
      OwedSplit(w.filter, w.log, w.received[0].Seq() - 1, w.lastSeq, x.Seq());
    }
  }

  lemma SaneStep(w: World, a: Action)
    requires Sane(w) && Enabled(w, a) && Roomy(w, a)
    ensures Sane(Apply(w, a))
  {
    match a
    case Publish(_, _, _) => PublishSane(w, a);
    case Connect => ConnectInTransit(w);
    case Disconnect =>
    case Write =>
      var l := w.link.value;
      assert (l.wire + [l.q.queue[0]]) + l.q.queue[1..] == l.wire + l.q.queue;
    case Route => RouteTakesFirstOwed(w);
  }

  lemma {:induction false} RunSane(run: seq<World>, actions: seq<Action>, i: nat)
    requires IsRun(run, actions) && AllRoomy(run, actions) && i < |run|
    ensures Sane(run[i])
  {
    if i > 0 {
      RunSane(run, actions, i - 1);
      assert Roomy(run[i - 1], actions[i - 1]);
      SaneStep(run[i - 1], actions[i - 1]);
      assert run[i - 1 + 1] == Apply(run[i - 1], actions[i - 1]);
    }
  }

  // ---------------------------------------------------------------- also when queues evict

  ghost predicate RisingEvents(items: seq<Item>) {
    forall i, j :: 0 <= i < j < |items| && items[i].Published? && items[j].Published? ==>
      items[i].Seq() < items[j].Seq()
  }

  /** The events among the items, markers aside, are admitted ones of the log past `lo`, in order. */
  ghost predicate FromLog(filter: EventFilter, log: seq<Event>, items: seq<Item>, lo: nat) {
    && RisingEvents(items)
    && forall x :: x in items && x.Published? ==> x.event in log && filter.Admits(x.event) && lo < x.Seq() <= |log|
  }

  /** Received events are no newer than the last number, and events on their way are. */
  ghost predicate Tidy(w: World) {
    && LogOk(w.log) && w.lastSeq <= |w.log| && w.capacity >= 1
    && FromLog(w.filter, w.log, w.received, 0)
    && (forall x :: x in w.received && x.Published? ==> x.Seq() <= w.lastSeq)
    && (w.link.Some? ==>
          && w.link.value.q.filter == w.filter
          && FromLog(w.filter, w.log, w.link.value.wire + w.link.value.q.queue, w.lastSeq))
  }

  lemma AppendFromLog(filter: EventFilter, log: seq<Event>, log': seq<Event>, items: seq<Item>, x: Item, lo: nat)
    requires FromLog(filter, log, items, lo) && log <= log'
    requires x.Published? ==> x.event in log' && filter.Admits(x.event) && lo < x.Seq() <= |log'| && |log| < x.Seq()
    ensures FromLog(filter, log', items + [x], lo)
  {
    forall i, j | 0 <= i < j < |items + [x]| && (items + [x])[i].Published? && (items + [x])[j].Published?
      ensures (items + [x])[i].Seq() < (items + [x])[j].Seq()
    {
      assert items[i] in items;
    }
  }

  lemma RemoveFromLog(filter: EventFilter, log: seq<Event>, front: seq<Item>, back: seq<Item>, lo: nat)
    requires back != [] && FromLog(filter, log, front + back, lo)
    ensures FromLog(filter, log, front + back[1..], lo)
  {
    var all, fewer := front + back, front + back[1..];
    forall i, j | 0 <= i < j < |fewer| && fewer[i].Published? && fewer[j].Published?
      ensures fewer[i].Seq() < fewer[j].Seq()
    {
      assert fewer[i] == all[if i < |front| then i else i + 1];
      assert fewer[j] == all[if j < |front| then j else j + 1];
    }
    assert forall x :: x in fewer ==> x in all;
  }

  /** Pushing the next event of the log to a queue that follows `front`. */
  lemma PushFromLog(log: seq<Event>, e: Event, front: seq<Item>, q: QueueState, lo: nat)
    requires FromLog(q.filter, log, front + q.queue, lo) && e.seqNo == |log| + 1 && lo <= |log|
    ensures FromLog(q.filter, log + [e], front + Pushed(q, e).queue, lo)
  {
    var log', q' := log + [e], Pushed(q, e);
    assert e in log';
    if !Accepts(q, e) {
    } else if |q.queue| >= q.capacity && q.queue != [] {
      RemoveFromLog(q.filter, log, front, q.queue, lo);
      AppendFromLog(q.filter, log, log', front + q.queue[1..], Published(e), lo);
      assert front + q'.queue == (front + q.queue[1..]) + [Published(e)];
    } else if |q.queue| < q.capacity && q.dropped > 0 {
      var m := Marker(q.dropped, q.firstDropped, q.lastDropped);
      AppendFromLog(q.filter, log, log, front + q.queue, m, lo);
      AppendFromLog(q.filter, log, log', front + q.queue + [m], Published(e), lo);
      assert front + q'.queue == (front + q.queue + [m]) + [Published(e)];
    } else {
      AppendFromLog(q.filter, log, log', front + q.queue, Published(e), lo);
      assert front + q'.queue == (front + q.queue) + [Published(e)];
    }
  }

  /** A replay that evicts leaves no marker in the queue, and the queue full. */
  lemma {:induction false} ReplayWithinCapacity(filter: EventFilter, capacity: nat, events: seq<Event>)
    requires capacity >= 1
    ensures var q := PushAll(Empty(filter, capacity), events);
            && q.filter == filter && q.capacity == capacity
            && |q.queue| <= capacity && (q.dropped > 0 ==> |q.queue| == capacity)
  {
    if events != [] {
      ReplayWithinCapacity(filter, capacity, events[..|events| - 1]);
    }
  }

  /** It keeps to its part of the log even so. */
  lemma {:induction false} ReplayFromLog(filter: EventFilter, capacity: nat, log: seq<Event>, lo: nat, hi: nat)
    requires LogOk(log) && lo <= hi <= |log| && capacity >= 1
    ensures FromLog(filter, log[..hi], PushAll(Empty(filter, capacity), log[lo..hi]).queue, lo)
  {
    if lo < hi {
      ReplayFromLog(filter, capacity, log, lo, hi - 1);
      ReplayWithinCapacity(filter, capacity, log[lo..hi - 1]);
      ReplayOneMore(filter, capacity, log, lo, hi);
    }
  }

  lemma ReplayOneMore(filter: EventFilter, capacity: nat, log: seq<Event>, lo: nat, hi: nat)
    requires lo < hi <= |log| && log[hi - 1].seqNo == hi
    requires PushAll(Empty(filter, capacity), log[lo..hi - 1]).filter == filter
    requires FromLog(filter, log[..hi - 1], PushAll(Empty(filter, capacity), log[lo..hi - 1]).queue, lo)
    ensures FromLog(filter, log[..hi], PushAll(Empty(filter, capacity), log[lo..hi]).queue, lo)
  {
    var q, e := PushAll(Empty(filter, capacity), log[lo..hi - 1]), log[hi - 1];
    assert log[lo..hi] == log[lo..hi - 1] + [e] && log[..hi] == log[..hi - 1] + [e];
    PushAllSnoc(Empty(filter, capacity), log[lo..hi - 1], e);
    assert [] + q.queue == q.queue && [] + Pushed(q, e).queue == Pushed(q, e).queue;
    PushFromLog(log[..hi - 1], e, [], q, lo);
  }

  lemma ConnectFromLog(w: World)
    requires LogOk(w.log) && w.lastSeq <= |w.log| && w.capacity >= 1 && w.link.None?
    ensures |Ring(w)| <= |w.log| && w.lastSeq <= StartOf(w) <= |w.log|
    ensures var l := Apply(w, Connect).link.value;
            && l.wire == [] && l.q.filter == w.filter && |l.q.queue| <= w.capacity
            && FromLog(w.filter, w.log, l.q.queue, StartOf(w))
  {
    ReplayIsTail(w);
    ReplayFromLog(w.filter, w.capacity, w.log, StartOf(w), |w.log|);
    ReplayWithinCapacity(w.filter, w.capacity, w.log[StartOf(w)..|w.log|]);
    assert w.log[StartOf(w)..|w.log|] == w.log[StartOf(w)..] && w.log[..|w.log|] == w.log;
  }

  lemma TidyPublish(w: World, a: Action)
    requires Tidy(w) && a.Publish? && w.link.Some?
    ensures Tidy(Apply(w, a))
  {
    PushFromLog(w.log, Next(w, a.name, a.bytes, a.session), w.link.value.wire, w.link.value.q, w.lastSeq);
  }

  lemma TidyConnect(w: World)
    requires Tidy(w) && w.link.None?
    ensures Tidy(Apply(w, Connect))
  {
    ConnectFromLog(w);
    var l := Apply(w, Connect).link.value;
    assert l.wire + l.q.queue == l.q.queue;
  }

  lemma TidyRoute(w: World)
    requires Tidy(w) && Enabled(w, Route)
    ensures Tidy(Apply(w, Route))
  {
    var w', l := Apply(w, Route), w.link.value;
    var x := l.wire[0];
    var all := l.wire + l.q.queue;
    assert all[0] == x && x in all;
    assert l.wire[1..] + l.q.queue == all[1..];
    forall y | y in all[1..] && y.Published? ensures y.Seq() > w'.lastSeq {
      var k :| 0 <= k < |all[1..]| && all[1..][k] == y;
      assert all[k + 1] == y && y in all;
    }
    forall i, j | 0 <= i < j < |w'.received| && w'.received[i].Published? && w'.received[j].Published?
      ensures w'.received[i].Seq() < w'.received[j].Seq()
    {
      assert w.received[i] in w.received;
    }
  }

  lemma TidyStep(w: World, a: Action)
    requires Tidy(w) && Enabled(w, a)
    ensures Tidy(Apply(w, a))
  {
    match a
    case Publish(_, _, _) =>
      if w.link.Some? {
        TidyPublish(w, a);
      }
    case Connect => TidyConnect(w);
    case Disconnect =>
    case Write =>
      var l := w.link.value;
      assert (l.wire + [l.q.queue[0]]) + l.q.queue[1..] == l.wire + l.q.queue;
    case Route => TidyRoute(w);
  }

  /**
    Whatever the ring or a queue has lost, no event is ever received twice or out of order, and
    none is received that was not published and admitted; only evictions bring markers.
   */
  lemma {:induction false} ReceivedRising(run: seq<World>, actions: seq<Action>, i: nat)
    requires IsRun(run, actions) && i < |run|
    ensures Tidy(run[i]) && RisingEvents(run[i].received)
    ensures forall x :: x in run[i].received && x.Published? ==> x.event in run[i].log && run[i].filter.Admits(x.event)
    ensures AllRoomy(run, actions) ==> forall x :: x in run[i].received ==> x.Published?
  {
    if i > 0 {
      ReceivedRising(run, actions, i - 1);
      TidyStep(run[i - 1], actions[i - 1]);
      assert run[i - 1 + 1] == Apply(run[i - 1], actions[i - 1]);
    }
    if AllRoomy(run, actions) {
      RunSane(run, actions, i);
    }
  }

  /** The current link starts no later than the next event the client needs. */
  ghost predicate NoGapAhead(w: World) {
    w.received != [] && w.link.Some? ==> w.link.value.start <= w.lastSeq
  }

  lemma GaplessStep(w: World, a: Action)
    requires Sane(w) && Gapless(w) && NoGapAhead(w) && Enabled(w, a) && Roomy(w, a) && Covered(w, a)
    ensures Gapless(Apply(w, a)) && NoGapAhead(Apply(w, a))
  {
    match a
    case Publish(_, _, _) => PublishGapless(w, a);
    case Connect => ConnectInTransit(w);
    case Disconnect =>
    case Write =>
    case Route =>
      RouteTakesFirstOwed(w);
      RouteKeepsGapless(w);
  }

  lemma {:induction false} RunGapless(run: seq<World>, actions: seq<Action>, i: nat)
    requires IsRun(run, actions) && AllRoomy(run, actions) && AllCovered(run, actions) && i < |run|
    ensures Sane(run[i]) && Gapless(run[i]) && NoGapAhead(run[i])
  {
    RunSane(run, actions, i);
    if i > 0 {
      RunGapless(run, actions, i - 1);
      assert Roomy(run[i - 1], actions[i - 1]) && Covered(run[i - 1], actions[i - 1]);
      GaplessStep(run[i - 1], actions[i - 1]);
      assert run[i - 1 + 1] == Apply(run[i - 1], actions[i - 1]);
    }
  }

  /**
    Gapless resume: over any number of disconnects, a client that has received one event holds
    every later admitted event up to the last one, once each and in order, and everything after
    that is on its way over the current link.
   */
  lemma GaplessResume(run: seq<World>, actions: seq<Action>, i: nat)
    requires IsRun(run, actions) && AllRoomy(run, actions) && AllCovered(run, actions) && i < |run|
    requires run[i].received != []
    ensures var w := run[i]; var first := w.received[0].Seq();
            && 1 <= first <= w.lastSeq <= |w.log|
            && w.received == Owed(w.filter, w.log, first - 1, w.lastSeq)
            && Rising(w.received)
            && (w.link.Some? ==>
                 w.received + (w.link.value.wire + w.link.value.q.queue)
                   == Owed(w.filter, w.log, first - 1, |w.log|))
  {
    RunGapless(run, actions, i);
    var w := run[i];
    OwedSplit(w.filter, w.log, w.received[0].Seq() - 1, w.lastSeq, |w.log|);
  }

  /**
    Before the first event received there is nothing to resume from, exactly: a new link then owes
    the client what was published so far if and only if no event of it is admitted.
   */
  lemma FirstConnectOwesNothing(run: seq<World>, actions: seq<Action>, i: nat)
    requires IsRun(run, actions) && i < |run| && run[i].link.None? && run[i].lastSeq == 0
    ensures var w := run[i];
            && Apply(w, Connect).link.value.q.queue == []
            && (Apply(w, Connect).link.value.q.queue == Owed(w.filter, w.log, 0, |w.log|)
                <==> forall e :: e in w.log ==> !w.filter.Admits(e))
  {
    ReceivedRising(run, actions, i);
    assert ReplayFits(run[i]);
    ConnectInTransit(run[i]);
    OwedWhenAdmitted(run[i].filter, run[i].log, |run[i].log|);
  }

  lemma {:induction false} OwedWhenAdmitted(filter: EventFilter, log: seq<Event>, hi: nat)
    requires hi <= |log|
    ensures Owed(filter, log, 0, hi) == [] <==> forall k :: 0 <= k < hi ==> !filter.Admits(log[k])
  {
    if hi > 0 {
      OwedWhenAdmitted(filter, log, hi - 1);
    }
  }

  /** The events among the items are numbered above `n`. */
  ghost predicate Above(items: seq<Item>, n: nat) {
    forall x :: x in items && x.Published? ==> x.Seq() > n
  }

  /** Beyond `got` nothing up to number `n` is received, on its way, or carried by a later link. */
  ghost predicate Past(w: World, n: nat, got: seq<Item>) {
    && n <= |w.log| && (w.lastSeq == 0 || w.lastSeq >= n || Gone(w) >= n)
    && got <= w.received && Above(w.received[|got|..], n)
    && (w.link.Some? ==> Above(w.link.value.wire, n) && Above(w.link.value.q.queue, n))
  }

  /** What has left the ring does not come back. */
  lemma GoneGrows(w: World, a: Action)
    requires LogOk(w.log) && a.Publish?
    ensures Gone(Apply(w, a)) >= Gone(w)
  {
    var w', e := Apply(w, a), Next(w, a.name, a.bytes, a.session);
    assert w'.log[..|w.log|] == w.log;
    assert Archive(w'.log) == Archive(w.log) + [ToArchived(e)];
    RetainedIncrementally(Archive(w.log), ToArchived(e), w.count, w.bytes);
    RetainedIsSuffix(Ring(w) + [ToArchived(e)], w.count, w.bytes);
    assert |Ring(w')| <= |Ring(w)| + 1;
  }

  lemma PublishAbove(q: QueueState, e: Event, n: nat)
    requires Above(q.queue, n) && e.seqNo > n
    ensures Above(Pushed(q, e).queue, n)
  {
  }

  lemma PastPublish(w: World, a: Action, n: nat, got: seq<Item>)
    requires Tidy(w) && a.Publish? && Past(w, n, got)
    ensures Past(Apply(w, a), n, got)
  {
    GoneGrows(w, a);
    if w.link.Some? {
      PublishAbove(w.link.value.q, Next(w, a.name, a.bytes, a.session), n);
    }
  }

  lemma PastRoute(w: World, n: nat, got: seq<Item>)
    requires Enabled(w, Route) && Past(w, n, got)
    ensures Past(Apply(w, Route), n, got)
  {
    var x, w' := w.link.value.wire[0], Apply(w, Route);
    assert x in w.link.value.wire;
    assert w'.received[|got|..] == w.received[|got|..] + [x];
    assert Gone(w') == Gone(w);
  }

  lemma PastStep(w: World, a: Action, n: nat, got: seq<Item>)
    requires Tidy(w) && Enabled(w, a) && Past(w, n, got)
    ensures Past(Apply(w, a), n, got)
  {
    match a
    case Publish(_, _, _) => PastPublish(w, a, n, got);
    case Connect => ConnectFromLog(w);
    case Disconnect =>
    case Write =>
    case Route => PastRoute(w, n, got);
  }

  lemma PastNext(run: seq<World>, actions: seq<Action>, k: nat, n: nat, got: seq<Item>)
    requires IsRun(run, actions) && k + 1 < |run| && Past(run[k], n, got)
    ensures Past(run[k + 1], n, got)
  {
    ReceivedRising(run, actions, k);
    PastStep(run[k], actions[k], n, got);
  }

  lemma {:induction false} StaysPast(run: seq<World>, actions: seq<Action>, i: nat, j: nat, n: nat, got: seq<Item>)
    requires IsRun(run, actions) && i <= j < |run| && Past(run[i], n, got)
    ensures Past(run[j], n, got)
    decreases j
  {
    if i < j {
      StaysPast(run, actions, i, j - 1, n, got);
      PastNext(run, actions, j - 1, n, got);
    }
  }

  /**
    What a link cannot carry is missed for good: over any number of later reconnects, nothing up to
    the number at which a link would start now is received any more. Before the first event that is
    all that was published; afterwards, what was received or has left the ring.
   */
  lemma MissedForGood(run: seq<World>, actions: seq<Action>, i: nat, j: nat)
    requires IsRun(run, actions) && i <= j < |run| && run[i].link.None?
    ensures run[i].received <= run[j].received
    ensures forall x :: x in run[j].received[|run[i].received|..] && x.Published? ==> x.Seq() > StartOf(run[i])
    ensures run[i].lastSeq == 0 ==> forall x :: x in run[j].received && x.Published? ==> x.Seq() > |run[i].log|
  {
    ReceivedRising(run, actions, i);
    ReplayIsTail(run[i]);
    StaysPast(run, actions, i, j, StartOf(run[i]), run[i].received);
    if run[i].lastSeq == 0 {
      var got := run[i].received;
      assert run[j].received == got + run[j].received[|got|..];
    }
  }

  /** A run that misses an admitted event so. */
  lemma NothingToResumeFrom(count: nat, bytes: nat, capacity: nat) returns (run: seq<World>, actions: seq<Action>)
    requires capacity >= 1
    ensures IsRun(run, actions) && AllRoomy(run, actions) && AllCovered(run, actions)
    ensures actions == [Connect, Disconnect, Publish("e", [], None), Connect]
    ensures var w := run[4];
            |w.log| == 1 && w.filter.Admits(w.log[0]) && w.link.Some? &&
            w.received == [] && w.link.value.wire == [] && w.link.value.q.queue == []
  {
    var w0 := World(count, bytes, capacity, EventFilter(None, None), [], None, 0, []);
    var w1 := Apply(w0, Connect);
    var w2 := Apply(w1, Disconnect);
    var w3 := Apply(w2, Publish("e", [], None));
    assert ReplayEvents(Ring(w3), Since(w3)) == [];
    var w4 := Apply(w3, Connect);
    run := [w0, w1, w2, w3, w4];
    actions := [Connect, Disconnect, Publish("e", [], None), Connect];
  }

  /** A ring of one entry holds the newest event. */
  lemma RingOfOne(log: seq<Event>, bytes: nat)
    requires LogOk(log) && log != [] && ToArchived(log[|log| - 1]).StorageBytes() <= bytes
    ensures Retained(Archive(log), 1, bytes) == [ToArchived(log[|log| - 1])]
  {
    var a := Archive(log);
    RetainedIsSuffix(a, 1, bytes);
    var last := a[|a| - 1];
    assert a[|a| - 1..] == [last] && last == ToArchived(log[|log| - 1]);
    assert Bytes([last]) == last.StorageBytes();
    assert Fits([last], 1, bytes);
    if |Retained(a, 1, bytes)| == 0 {
      RetainedIsLongest(a, 1, bytes, |a| - 1);
    }
  }

  lemma Continue(run: seq<World>, actions: seq<Action>, a: Action) returns (run': seq<World>, actions': seq<Action>)
    requires AllRoomy(run, actions) && Enabled(run[|run| - 1], a) && Roomy(run[|run| - 1], a)
    ensures AllRoomy(run', actions')
    ensures run' == run + [Apply(run[|run| - 1], a)] && actions' == actions + [a]
  {
    run', actions' := run + [Apply(run[|run| - 1], a)], actions + [a];
    forall i | 0 <= i < |actions'|
      ensures Enabled(run'[i], actions'[i]) && run'[i + 1] == Apply(run'[i], actions'[i]) && Roomy(run'[i], actions'[i])
    {
      if i < |actions| {
        assert run'[i] == run[i] && run'[i + 1] == run[i + 1];
      }
    }
  }

  /** A client that has received event 1 and is disconnected. */
  lemma OneReceived(bytes: nat, capacity: nat) returns (run: seq<World>, actions: seq<Action>)
    requires capacity >= 1
    ensures AllRoomy(run, actions) && |run| == 6
    ensures actions == [Connect, Publish("e", [], None), Write, Route, Disconnect]
    ensures var e := Event("e", 1, None, Encodable([]));
            run[5] == World(1, bytes, capacity, EventFilter(None, None), [e], None, 1, [Published(e)])
  {
    var w := World(1, bytes, capacity, EventFilter(None, None), [], None, 0, []);
    var e, q := Event("e", 1, None, Encodable([])), Empty(w.filter, capacity);
    run, actions := [w], [];
    var x := Published(e);
    assert ReplayEvents(Ring(w), Since(w)) == [];
    assert w.log + [e] == [e] && q.queue + [x] == [x] && [] + [x] == [x] && [x][1..] == q.queue;
    run, actions := Continue(run, actions, Connect);
    assert run[1] == w.(link := Some(Link(0, q, [])));
    run, actions := Continue(run, actions, Publish("e", [], None));
    assert run[2] == w.(log := [e], link := Some(Link(0, q.(queue := [x]), [])));
    run, actions := Continue(run, actions, Write);
    assert run[3] == w.(log := [e], link := Some(Link(0, q, [x])));
    run, actions := Continue(run, actions, Route);
    run, actions := Continue(run, actions, Disconnect);
  }

  /** Event 2 has left the ring, so the next link carries event 3 alone. */
  lemma ReplayPastHole(w: World)
    requires var e := (n: nat) => Event("e", n, None, Encodable([]));
             w == World(1, w.bytes, w.capacity, EventFilter(None, None), [e(1), e(2), e(3)], None, 1, [Published(e(1))])
    requires w.capacity >= 1 && w.bytes >= 17
    ensures Roomy(w, Connect)
    ensures var e3 := Event("e", 3, None, Encodable([]));
            Apply(w, Connect).link == Some(Link(2, Empty(w.filter, w.capacity).(queue := [Published(e3)]), []))
  {
    RingOfOne(w.log, w.bytes);
    var e3 := w.log[2];
    assert ReplayEvents(Ring(w), Since(w)) == [e3];
    assert Owed(w.filter, w.log, 2, 2) == [];
    var q := Empty(w.filter, w.capacity);
    assert PushAll(q, [e3]) == Pushed(q, e3) == q.(queue := [Published(e3)]);
    assert StartOf(w) == 2;
  }

  /** A run in which an event leaves the ring during a disconnect: the next link starts past it. */
  lemma RingLosesEvent(bytes: nat, capacity: nat) returns (run: seq<World>, actions: seq<Action>)
    requires capacity >= 1 && bytes >= 17
    ensures IsRun(run, actions) && AllRoomy(run, actions) && |run| == 9
    ensures var e := (n: nat) => Event("e", n, None, Encodable([]));
            && run[8].log == [e(1), e(2), e(3)] && run[8].received == [Published(e(1))]
            && run[8].link.Some? && run[8].link.value.wire == [] && run[8].link.value.q.queue == [Published(e(3))]
  {
    run, actions := OneReceived(bytes, capacity);
    run, actions := Continue(run, actions, Publish("e", [], None));
    run, actions := Continue(run, actions, Publish("e", [], None));
    ReplayPastHole(run[7]);
    run, actions := Continue(run, actions, Connect);
  }

  /** The log holds what was published, under the numbers given in turn. */
  lemma {:induction false} PublishedIsLogged(run: seq<World>, actions: seq<Action>, m: nat, i: nat)
    requires IsRun(run, actions) && m < i < |run| && actions[m].Publish?
    ensures |run[m].log| < |run[i].log|
    ensures run[i].log[|run[m].log|]
         == Event(actions[m].name, |run[m].log| + 1, actions[m].session, Encodable(actions[m].bytes))
    decreases i
  {
    assert run[i - 1 + 1] == Apply(run[i - 1], actions[i - 1]);
    if m < i - 1 {
      PublishedIsLogged(run, actions, m, i - 1);
    }
  }
}
