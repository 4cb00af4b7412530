/**
  Publishing as it interleaves (events.rs, EventBus.publish, subscribe, EventStream.drop): numbering
  holds the bus lock, pushing to each queue does not, and any two steps may have others in between.
 */
module Delivery {
  import opened Common
  import opened SubscriberQueues
  import opened EventBuses

  /** A subscription: its queue is `Run(filter, capacity, ops)`. */
  datatype Subscription = Subscription(
    since: Option<nat>, filter: EventFilter,
    at: nat,                 // events sequenced when it registered
    until: Option<nat>,      // events sequenced when it left the map
    ops: seq<Op>)

  datatype Bus = Bus(
    count: nat, bytes: nat, capacity: nat,
    log: seq<Event>,
    subs: map<nat, Subscription>,
    nextSubscriber: nat,
    inflight: map<nat, set<nat>>)   // event number -> captured queues still to be pushed to

  datatype Action =
    | Sequence(name: string, params: JsonValue, session: Option<string>)
    | PushOne(n: nat, id: nat)
    | Subscribe(since: Option<nat>, filter: EventFilter)
    | Recv(id: nat)
    | CloseQueue(id: nat)
    | Unregister(id: nat)

  /** The ring when `at` events had been sequenced. */
  function RingAt(b: Bus, at: nat): seq<Archived> {
    Retained(Archive(if at <= |b.log| then b.log[..at] else b.log), b.count, b.bytes)
  }

  function PushOps(events: seq<Event>): seq<Op> {
    seq(|events|, i requires 0 <= i < |events| => DoPush(events[i]))
  }

  predicate Enabled(b: Bus, a: Action) {
    match a
    case Sequence(_, _, _) => true
    case PushOne(n, id) => n in b.inflight && id in b.inflight[n] && id in b.subs && 1 <= n <= |b.log|
    case Subscribe(_, _) => true
    case Recv(id) => id in b.subs && DoClose !in b.subs[id].ops
    case CloseQueue(id) => id in b.subs && DoClose !in b.subs[id].ops
    case Unregister(id) => id in b.subs && DoClose in b.subs[id].ops && b.subs[id].until.None?
  }

  function Registered(b: Bus): set<nat> {
    set id | id in b.subs && b.subs[id].until.None?
  }

  function Did(b: Bus, id: nat, op: Op): Bus {
    if id !in b.subs then b
    else b.(subs := b.subs[id := b.subs[id].(ops := b.subs[id].ops + [op])])
  }

  function Apply(b: Bus, a: Action): Bus
    requires Enabled(b, a)
  {
    match a
    case Sequence(name, params, session) =>
      var n := |b.log| + 1;
      b.(log := b.log + [Event(name, n, session, params)], inflight := b.inflight[n := Registered(b)])
    case PushOne(n, id) =>
      Did(b, id, DoPush(b.log[n - 1])).(inflight := b.inflight[n := b.inflight[n] - {id}])
    case Subscribe(since, filter) =>
      var replay := ReplayEvents(RingAt(b, |b.log|), since);
      b.(subs := b.subs[b.nextSubscriber := Subscription(since, filter, |b.log|, None, PushOps(replay))],
         nextSubscriber := b.nextSubscriber + 1)
    case Recv(id) => Did(b, id, DoPop)
    case CloseQueue(id) => Did(b, id, DoClose)
    case Unregister(id) => b.(subs := b.subs[id := b.subs[id].(until := Some(|b.log|))])
  }

  ghost predicate IsRun(run: seq<Bus>, actions: seq<Action>) {
    && |run| == |actions| + 1
    && run[0].log == [] && run[0].subs == map[] && run[0].inflight == map[] && run[0].nextSubscriber == 0
    && forall i :: 0 <= i < |actions| ==> Enabled(run[i], actions[i]) && run[i + 1] == Apply(run[i], actions[i])
  }

  /** The events handed to a queue, by replay and live, in the order of the push calls. */
  function Handed(ops: seq<Op>): seq<Event> {
    if ops == [] then []
    else Handed(ops[..|ops| - 1]) +
         if ops[|ops| - 1].DoPush? then [ops[|ops| - 1].event] else []
  }

  lemma HandedSnoc(ops: seq<Op>, op: Op)
    ensures Handed(ops + [op]) == Handed(ops) + if op.DoPush? then [op.event] else []
  {
    assert (ops + [op])[..|ops|] == ops;
  }

  lemma {:induction false} HandedPushOps(events: seq<Event>)
    ensures Handed(PushOps(events)) == events
  {
    if events != [] {
      var n := |events| - 1;
      HandedPushOps(events[..n]);
      assert PushOps(events)[..n] == PushOps(events[..n]);
      assert events == events[..n] + [events[n]];
    }
  }

  /** The publishes that captured this queue and have not pushed to it yet. */
  function Pending(b: Bus, id: nat): set<nat> {
    set n | n in b.inflight && id in b.inflight[n]
  }

  /** Event `n` is due to `s`: replayed from the ring it found, or sequenced while registered. */
  predicate Due(b: Bus, s: Subscription, n: nat) {
    if !(1 <= n <= |b.log| && s.at <= |b.log|) then false
    else if n <= s.at then b.log[n - 1] in ReplayEvents(RingAt(b, s.at), s.since)
    else s.until.None? || n <= s.until.value
  }

  ghost predicate Numbered(log: seq<Event>) {
    forall i :: 0 <= i < |log| ==> log[i].seqNo == i + 1
  }

  /** Handed so far plus still pending is one for an event that is due, and zero for any other. */
  ghost predicate CountedOnce(b: Bus, s: Subscription, pending: set<nat>, n: nat) {
    1 <= n <= |b.log| &&
    multiset(Handed(s.ops))[b.log[n - 1]] + (if n in pending then 1 else 0) == if Due(b, s, n) then 1 else 0
  }

  ghost predicate InWindow(b: Bus, s: Subscription, pending: set<nat>) {
    && s.at <= |b.log|
    && (s.until.Some? ==> s.at <= s.until.value <= |b.log|)
    && (forall e :: e in Handed(s.ops) ==> e in b.log)
    && (forall n :: n in pending ==> s.at < n <= |b.log|)
  }

  ghost predicate Exact(b: Bus, s: Subscription, pending: set<nat>) {
    && InWindow(b, s, pending)
    && forall n :: 1 <= n <= |b.log| ==> CountedOnce(b, s, pending, n)
  }

  ghost predicate Inv(b: Bus) {
    && Numbered(b.log)
    && (forall id :: id in b.subs ==> id < b.nextSubscriber)
    && (forall n :: n in b.inflight ==> 1 <= n <= |b.log| && b.inflight[n] <= b.subs.Keys)
    && forall id :: id in b.subs ==> Exact(b, b.subs[id], Pending(b, id))
  }

  /** Once a publish has no queue left to push to, it is over. */
  predicate Quiescent(b: Bus) {
    forall n :: n in b.inflight ==> b.inflight[n] == {}
  }

  ghost predicate Rising(events: seq<Event>) {
    forall i, j :: 0 <= i < j < |events| ==> events[i].seqNo < events[j].seqNo
  }

  /** Popped and queued entries are exactly the admitted events of `handed`, in order. */
  ghost predicate PassesAll(h: History, handed: seq<Event>) {
    && h.q.dropped == 0 && !h.q.closed && h.evicted == []
    && h.popped + h.q.queue == Items(Admitted(h.q.filter, handed))
  }

  /** The handed events rise, and only the newest event may still be pending. */
  ghost predicate InSequence(b: Bus, id: nat) {
    && id in b.subs
    && Rising(Handed(b.subs[id].ops))
    && (forall n :: n in Pending(b, id) ==> n == |b.log|)
    && (|b.log| in Pending(b, id) ==> forall e :: e in Handed(b.subs[id].ops) ==> e.seqNo < |b.log|)
  }

  /** The handed events rise, and each of them is older than all that are pending. */
  ghost predicate Ordered(handed: seq<Event>, pending: set<nat>) {
    Rising(handed) && forall e, n :: e in handed && n in pending ==> e.seqNo < n
  }

  ghost predicate InOrder(b: Bus, id: nat) {
    id in b.subs ==> Ordered(Handed(b.subs[id].ops), Pending(b, id))
  }

  predicate IsLeast(n: nat, s: set<nat>) {
    n in s && forall m :: m in s ==> n <= m
  }

  /** If this step pushes to `id`, it pushes the oldest event still pending for it. */
  predicate InTurn(b: Bus, a: Action, id: nat) {
    a.PushOne? && a.id == id ==> IsLeast(a.n, Pending(b, id))
  }

  /** Each publish finishes its pushes before the next one takes the lock. */
  ghost predicate Serial(run: seq<Bus>, actions: seq<Action>) {
    forall k :: 0 <= k < |actions| && k < |run| && actions[k].Sequence? ==> Quiescent(run[k])
  }

  /** What a subscription made now is owed of the past: the retained events after `since`, if it names one. */
  function Replayed(b: Bus, since: Option<nat>): seq<Event> {
    if since.None? then [] else RetainedAfter(b.log, b.count, b.bytes, since.value)
  }

  /** The encodable events of the log that the ring still holds and that are numbered above `since`. */
  function RetainedAfter(log: seq<Event>, count: nat, bytes: nat, since: nat): seq<Event> {
    var kept, all := |Retained(Archive(log), count, bytes)|, Archivable(log);
    if kept > |all| then [] else Filter((e: Event) => e.seqNo > since, all[|all| - kept..])
  }

  /** The `k`-th action makes subscription `id`. */
  predicate SubscribedAt(run: seq<Bus>, actions: seq<Action>, k: nat, id: nat, since: Option<nat>, filter: EventFilter) {
    k < |run| && k < |actions| && actions[k] == Subscribe(since, filter) && id == run[k].nextSubscriber
  }

  /** The `m`-th action publishes event `n`. */
  predicate SequencedAt(run: seq<Bus>, actions: seq<Action>, m: nat, n: nat) {
    m < |run| && m < |actions| && actions[m].Sequence? && |run[m].log| + 1 == n
  }

  /**
    Subscription `id`, made by the `k`-th action with `since`, is to get event `n`: the ring held it
    then past `since`, or it was published later and before the subscription left the map.
   */
  ghost predicate Wanted(run: seq<Bus>, actions: seq<Action>, k: nat, id: nat, since: Option<nat>, n: nat) {
    k < |run| && n >= 1 &&
    if n <= |run[k].log| then run[k].log[n - 1] in Replayed(run[k], since)
    else exists m: nat :: SequencedAt(run, actions, m, n) && Unregister(id) !in actions[..m]
  }

  /** The queue of a subscription. */
  function QueueOf(b: Bus, id: nat): QueueState {
    if id in b.subs then Run(b.subs[id].filter, b.capacity, b.subs[id].ops).q else Empty(NewFilter(None, None), b.capacity)
  }

  /** What the subscription's consumer has taken in the first `i` steps. */
  function ReadBy(run: seq<Bus>, actions: seq<Action>, i: nat, id: nat): seq<Item>
    requires i <= |run| && i <= |actions|
  {
    if i == 0 then []
    else
      var queue := QueueOf(run[i - 1], id).queue;
      ReadBy(run, actions, i - 1, id) + if actions[i - 1] == Recv(id) && queue != [] then [queue[0]] else []
  }

  // ---------------------------------------------------------------- results

  /**
    Exactly once, over every interleaving: an event that was in the ring past the number asked for
    when the subscription was made, or was published before it left the map, has been handed to it
    once or is still to be pushed by its publish, never both; nothing else is ever handed to it.
   */
  lemma HandedExactlyOnce(run: seq<Bus>, actions: seq<Action>, k: nat, i: nat, id: nat, since: Option<nat>,
                          filter: EventFilter, n: nat)
    requires IsRun(run, actions) && k < i < |run| && SubscribedAt(run, actions, k, id, since, filter)
    requires 1 <= n <= |run[i].log|
    ensures id in run[i].subs
    ensures var b := run[i]; var s := b.subs[id];
            && multiset(Handed(s.ops))[b.log[n - 1]] + (if n in Pending(b, id) then 1 else 0)
                 == (if Wanted(run, actions, k, id, since, n) then 1 else 0)
            && (forall e :: e in Handed(s.ops) ==> e in b.log)
            && (Quiescent(b) ==> (b.log[n - 1] in Handed(s.ops) <==> Wanted(run, actions, k, id, since, n)))
  {
    RunInv(run, actions, i);
    SubscriptionIs(run, actions, k, i, id, since, filter);
    DueIsWanted(run, actions, k, i, id, since, filter, n);
    assert CountedOnce(run[i], run[i].subs[id], Pending(run[i], id), n);
  }

  /** A new subscription has its replay at once, in one step with its registration, and nothing else. */
  lemma SubscribedWithReplay(run: seq<Bus>, actions: seq<Action>, k: nat, id: nat, since: Option<nat>, filter: EventFilter)
    requires IsRun(run, actions) && SubscribedAt(run, actions, k, id, since, filter)
    ensures id !in run[k].subs && id in run[k + 1].subs && id in Registered(run[k + 1])
    ensures Handed(run[k + 1].subs[id].ops) == Replayed(run[k], since)
    ensures QueueOf(run[k + 1], id) == PushAll(Empty(filter, run[k].capacity), Replayed(run[k], since))
  {
    RunInv(run, actions, k);
    assert run[k + 1] == Apply(run[k], Subscribe(since, filter));
    ReplayIsReplayed(run[k], since);
    HandedPushOps(Replayed(run[k], since));
    PushOpsFill(filter, run[k].capacity, Replayed(run[k], since));
  }

  /** The log holds what was published, under the numbers given in turn. */
  lemma PublishedIsLogged(run: seq<Bus>, actions: seq<Action>, m: nat, i: nat)
    requires IsRun(run, actions) && m < i < |run| && actions[m].Sequence?
    ensures |run[m].log| < |run[i].log|
    ensures run[i].log[|run[m].log|] == Event(actions[m].name, |run[m].log| + 1, actions[m].session, actions[m].params)
  {
    assert run[m + 1] == Apply(run[m], actions[m]);
    LogGrows(run, actions, m + 1, i);
    assert run[i].log[|run[m].log|] == run[m + 1].log[|run[m].log|];
  }

  /**
    The consumer of a subscription that is open and has not overflowed has read, in order, a prefix
    of the admitted events it was handed, and the rest is in its queue.
   */
  lemma ReadsWhatWasHanded(run: seq<Bus>, actions: seq<Action>, k: nat, i: nat, id: nat, since: Option<nat>,
                           filter: EventFilter)
    requires IsRun(run, actions) && k < i < |run| && SubscribedAt(run, actions, k, id, since, filter)
    requires CloseQueue(id) !in actions[..i] && run[i].capacity >= 1
    requires id in run[i].subs && Run(filter, run[i].capacity, run[i].subs[id].ops).evicted == []
    ensures ReadBy(run, actions, i, id) + QueueOf(run[i], id).queue
         == Items(Admitted(filter, Handed(run[i].subs[id].ops)))
  {
    SubscriptionIs(run, actions, k, i, id, since, filter);
    ReadsArePopped(run, actions, i, id);
    ClosedByClosing(run, actions, i, id);
    NoEvictionPassesAll(filter, run[i].capacity, run[i].subs[id].ops);
    FilterKept(filter, run[i].capacity, run[i].subs[id].ops);
  }

  /**
    While open and never overflowing, a queue passes on the admitted events it was handed: with
    `HandedExactlyOnce`, the consumer reads each of them once.
   */
  lemma {:induction false} NoEvictionPassesAll(filter: EventFilter, capacity: nat, ops: seq<Op>)
    requires capacity >= 1 && DoClose !in ops && Run(filter, capacity, ops).evicted == []
    ensures PassesAll(Run(filter, capacity, ops), Handed(ops))
  {
    if ops == [] {
    } else {
      var front, op := ops[..|ops| - 1], ops[|ops| - 1];
      var h := Run(filter, capacity, front);
      assert h.q.capacity == capacity by {
        QueueConservation(filter, capacity, front);
      }
      assert h.evicted <= Step(h, op).evicted;
      NoEvictionPassesAll(filter, capacity, front);
      PassesStep(h, Handed(front), op);
    }
  }

  lemma PassesStep(h: History, handed: seq<Event>, op: Op)
    requires PassesAll(h, handed) && h.q.capacity >= 1 && op != DoClose && Step(h, op).evicted == []
    ensures PassesAll(Step(h, op), handed + if op.DoPush? then [op.event] else [])
  {
    if op.DoPush? {
      PassesPush(h, handed, op.event);
    } else {
      PassesPop(h, handed);
      assert handed + [] == handed;
    }
  }

  /**
    When a subscription gets its events in increasing order, exactly: if and only if every push to
    it was of the oldest event then pending for it. With nothing pending that is the order of all
    the events it was handed.
   */
  lemma {:induction false} OrderedExactlyWhenInTurn(run: seq<Bus>, actions: seq<Action>, i: nat, id: nat)
    requires IsRun(run, actions) && i < |run|
    ensures InOrder(run[i], id) <==> forall k :: 0 <= k < i ==> InTurn(run[k], actions[k], id)
    ensures id in run[i].subs && Pending(run[i], id) == {} ==>
              (Rising(Handed(run[i].subs[id].ops)) <==> forall k :: 0 <= k < i ==> InTurn(run[k], actions[k], id))
  {
    if i > 0 {
      OrderedExactlyWhenInTurn(run, actions, i - 1, id);
      RunInv(run, actions, i - 1);
      assert run[i - 1 + 1] == Apply(run[i - 1], actions[i - 1]);
      StepInTurn(run[i - 1], actions[i - 1], id);
    }
  }

  /** Serial publishers hand every subscription its events in increasing order. */
  lemma SerialPublishersKeepOrder(run: seq<Bus>, actions: seq<Action>, i: nat, id: nat)
    requires IsRun(run, actions) && Serial(run, actions) && i < |run| && id in run[i].subs
    ensures Rising(Handed(run[i].subs[id].ops))
    ensures InSequence(run[i], id)
  {
    forall k | 0 <= k < i ensures InTurn(run[k], actions[k], id) {
      SerialPending(run, actions, k, id);
    }
    OrderedExactlyWhenInTurn(run, actions, i, id);
    SerialPending(run, actions, i, id);
  }

  /** Two publishes that overlap may hand their events over in the opposite order. */
  lemma OverlappingPublishersReorder(count: nat, bytes: nat, capacity: nat)
    returns (run: seq<Bus>, actions: seq<Action>)
    ensures IsRun(run, actions) && 0 in run[|run| - 1].subs
    ensures !Rising(Handed(run[|run| - 1].subs[0].ops))
  {
    run, actions := TwoInFlight(count, bytes, capacity);
    var b := run[|run| - 1];
    run, actions := Continue(run, actions, PushOne(2, 0));
    run, actions := Continue(run, actions, PushOne(1, 0));
    HandedSnoc([], DoPush(b.log[1]));
    HandedSnoc([DoPush(b.log[1])], DoPush(b.log[0]));
    var handed := Handed(run[|run| - 1].subs[0].ops);
    assert handed == [b.log[1], b.log[0]];
    assert handed[0].seqNo == 2 && handed[1].seqNo == 1;
  }

  /** Two publishes have numbered their events and pushed neither. */
  lemma TwoInFlight(count: nat, bytes: nat, capacity: nat) returns (run: seq<Bus>, actions: seq<Action>)
    ensures IsRun(run, actions)
    ensures run[|run| - 1].log == [Event("a", 1, None, Unencodable), Event("b", 2, None, Unencodable)]
    ensures run[|run| - 1].subs == map[0 := Subscription(None, NewFilter(None, None), 0, None, [])]
    ensures run[|run| - 1].inflight == map[1 := {0}, 2 := {0}]
  {
    var b0 := Bus(count, bytes, capacity, [], map[], 0, map[]);
    assert ReplayEvents(RingAt(b0, 0), None) == [];
    var b1 := Apply(b0, Subscribe(None, NewFilter(None, None)));
    assert Registered(b1) == {0};
    var b2 := Apply(b1, Sequence("a", Unencodable, None));
    assert Registered(b2) == {0};
    var b3 := Apply(b2, Sequence("b", Unencodable, None));
    run := [b0, b1, b2, b3];
    actions := [Subscribe(None, NewFilter(None, None)), Sequence("a", Unencodable, None), Sequence("b", Unencodable, None)];
  }

  /** One event has been published and pushed to the one subscription there is. */
  lemma OneEventPushed(count: nat, bytes: nat, capacity: nat, e: Event) returns (run: seq<Bus>, actions: seq<Action>)
    requires e == Event("a", 1, None, Unencodable)
    ensures IsRun(run, actions) && actions == [Subscribe(None, NewFilter(None, None)), Sequence("a", Unencodable, None), PushOne(1, 0)]
    ensures var s := Subscription(None, NewFilter(None, None), 0, None, [DoPush(e)]);
            run[3] == Bus(count, bytes, capacity, [e], map[0 := s], 1, map[1 := {}])
  {
    var b0 := Bus(count, bytes, capacity, [], map[], 0, map[]);
    assert ReplayEvents(RingAt(b0, 0), None) == [];
    var b1 := Apply(b0, Subscribe(None, NewFilter(None, None)));
    assert Registered(b1) == {0};
    var b2 := Apply(b1, Sequence("a", Unencodable, None));
    var b3 := Apply(b2, PushOne(1, 0));
    assert b1.subs[0].ops == [] && b2.log == [e] && [] + [DoPush(e)] == [DoPush(e)];
    var s := Subscription(None, NewFilter(None, None), 0, None, [DoPush(e)]);
    assert b2.inflight == map[1 := {0}] && {0} - {0} == {};
    assert b3.subs == map[0 := s] && b3.inflight == map[1 := {}];
    run := [b0, b1, b2, b3];
    actions := [Subscribe(None, NewFilter(None, None)), Sequence("a", Unencodable, None), PushOne(1, 0)];
  }

  lemma PushPopClose(e: Event, capacity: nat)
    requires capacity >= 1
    ensures Run(NewFilter(None, None), capacity, [DoPush(e), DoPop, DoClose]).popped == [Published(e)]
  {
    var ops := [DoPush(e), DoPop, DoClose];
    assert ops[..2][..1] == [DoPush(e)] && [DoPush(e)][..0] == [] && ops[..2] == [DoPush(e), DoPop];
    assert Run(NewFilter(None, None), capacity, [DoPush(e)]).q.queue == [Published(e)];
  }

  /** One subscription from its making to its end: an event is published, pushed and read, and the stream dropped. */
  lemma OneEventRead(count: nat, bytes: nat, capacity: nat, e: Event) returns (run: seq<Bus>, actions: seq<Action>)
    requires capacity >= 1 && e == Event("a", 1, None, Unencodable)
    ensures IsRun(run, actions) && |actions| == 6
    ensures actions[2..] == [PushOne(1, 0), Recv(0), CloseQueue(0), Unregister(0)]
    ensures ReadBy(run, actions, 6, 0) == [Published(e)] && Registered(run[6]) == {}
  {
    run, actions := OneEventPushed(count, bytes, capacity, e);
    var b := run[3];
    assert [DoPush(e)] + [DoPop] == [DoPush(e), DoPop] && [DoPush(e), DoPop] + [DoClose] == [DoPush(e), DoPop, DoClose];
    run, actions := Continue(run, actions, Recv(0));
    assert run[4].subs == map[0 := b.subs[0].(ops := [DoPush(e), DoPop])];
    run, actions := Continue(run, actions, CloseQueue(0));
    assert run[5].subs == map[0 := b.subs[0].(ops := [DoPush(e), DoPop, DoClose])];
    run, actions := Continue(run, actions, Unregister(0));
    ReadsArePopped(run, actions, 6, 0);
    PushPopClose(e, capacity);
  }

  // ---------------------------------------------------------------- the history of a subscription

  lemma {:induction false} LogGrows(run: seq<Bus>, actions: seq<Action>, i: nat, j: nat)
    requires IsRun(run, actions) && i <= j < |run|
    ensures run[i].log <= run[j].log
    ensures run[j].count == run[i].count && run[j].bytes == run[i].bytes && run[j].capacity == run[i].capacity
    decreases j
  {
    if i < j {
      LogGrows(run, actions, i, j - 1);
      assert run[j - 1 + 1] == Apply(run[j - 1], actions[j - 1]);
    }
  }

  /** A subscription remembers what it asked for and when. */
  lemma {:induction false} SubscriptionIs(run: seq<Bus>, actions: seq<Action>, k: nat, i: nat, id: nat,
                                          since: Option<nat>, filter: EventFilter)
    requires IsRun(run, actions) && k < i < |run| && SubscribedAt(run, actions, k, id, since, filter)
    ensures id in run[i].subs && id < run[i].nextSubscriber
    ensures var s := run[i].subs[id]; s.since == since && s.filter == filter && s.at == |run[k].log|
    decreases i
  {
    assert run[i - 1 + 1] == Apply(run[i - 1], actions[i - 1]);
    if k < i - 1 {
      SubscriptionIs(run, actions, k, i - 1, id, since, filter);
    }
  }

  /** The number of events published when the subscription left the map, if it did. */
  ghost predicate LeftWhen(run: seq<Bus>, actions: seq<Action>, i: nat, id: nat, until: Option<nat>) {
    && i <= |run| && i <= |actions|
    && (until.None? ==> Unregister(id) !in actions[..i])
    && (until.Some? ==>
          exists j: nat :: j < i && actions[j] == Unregister(id) && |run[j].log| == until.value
                           && Unregister(id) !in actions[..j])
  }

  function UntilOf(b: Bus, id: nat): Option<nat> {
    if id in b.subs then b.subs[id].until else None
  }

  lemma UntilStep(b: Bus, a: Action, id: nat)
    requires Enabled(b, a) && forall i :: i in b.subs ==> i < b.nextSubscriber
    ensures UntilOf(Apply(b, a), id) == if a == Unregister(id) then Some(|b.log|) else UntilOf(b, id)
    ensures a == Unregister(id) ==> UntilOf(b, id) == None
  {
  }

  lemma UntilNext(run: seq<Bus>, actions: seq<Action>, i: nat, id: nat)
    requires IsRun(run, actions) && i < |actions|
    ensures UntilOf(run[i + 1], id) == if actions[i] == Unregister(id) then Some(|run[i].log|) else UntilOf(run[i], id)
    ensures actions[i] == Unregister(id) ==> UntilOf(run[i], id) == None
  {
    RunInv(run, actions, i);
    UntilStep(run[i], actions[i], id);
  }

  lemma {:induction false} UntilTracks(run: seq<Bus>, actions: seq<Action>, i: nat, id: nat)
    requires IsRun(run, actions) && i < |run|
    ensures LeftWhen(run, actions, i, id, UntilOf(run[i], id))
  {
    if i > 0 {
      UntilTracks(run, actions, i - 1, id);
      UntilNext(run, actions, i - 1, id);
      assert actions[..i] == actions[..i - 1] + [actions[i - 1]];
    }
  }

  /** Every event of the log was published by one step. */
  lemma {:induction false} PublishStep(run: seq<Bus>, actions: seq<Action>, i: nat, n: nat) returns (m: nat)
    requires IsRun(run, actions) && i < |run| && 1 <= n <= |run[i].log|
    ensures m < i && SequencedAt(run, actions, m, n)
  {
    assert run[i - 1 + 1] == Apply(run[i - 1], actions[i - 1]);
    if n <= |run[i - 1].log| {
      m := PublishStep(run, actions, i - 1, n);
    } else {
      m := i - 1;
    }
  }

  lemma SequencedOnce(run: seq<Bus>, actions: seq<Action>, l: nat, m: nat, n: nat)
    requires IsRun(run, actions) && SequencedAt(run, actions, l, n) && SequencedAt(run, actions, m, n)
    ensures l == m
  {
    var first, last := if l < m then l else m, if l < m then m else l;
    if first < last {
      assert run[first + 1] == Apply(run[first], actions[first]);
      LogGrows(run, actions, first + 1, last);
    }
  }

  lemma DueIsWanted(run: seq<Bus>, actions: seq<Action>, k: nat, i: nat, id: nat, since: Option<nat>,
                    filter: EventFilter, n: nat)
    requires IsRun(run, actions) && k < i < |run| && SubscribedAt(run, actions, k, id, since, filter)
    requires id in run[i].subs && 1 <= n <= |run[i].log|
    ensures Due(run[i], run[i].subs[id], n) <==> Wanted(run, actions, k, id, since, n)
  {
    SubscriptionIs(run, actions, k, i, id, since, filter);
    LogGrows(run, actions, k, i);
    if n <= |run[k].log| {
      RunInv(run, actions, k);
      ReplayIsReplayed(run[k], since);
      assert run[i].log[..|run[k].log|] == run[k].log == run[k].log[..|run[k].log|];
    } else {
      LiveIsWanted(run, actions, i, id, n);
    }
  }

  lemma LiveIsWanted(run: seq<Bus>, actions: seq<Action>, i: nat, id: nat, n: nat)
    requires IsRun(run, actions) && i < |run| && id in run[i].subs && 1 <= n <= |run[i].log|
    ensures var until := run[i].subs[id].until;
            (until.None? || n <= until.value)
            <==> exists m: nat :: SequencedAt(run, actions, m, n) && Unregister(id) !in actions[..m]
  {
    var until := run[i].subs[id].until;
    UntilTracks(run, actions, i, id);
    var m := PublishStep(run, actions, i, n);
    if until.None? {
      assert Unregister(id) !in actions[..m] by {
        assert actions[..m] <= actions[..i];
      }
    } else {
      var j: nat :| j < i && actions[j] == Unregister(id) && |run[j].log| == until.value
                    && Unregister(id) !in actions[..j];
      BeforeLeaving(run, actions, id, j, m, n);
    }
    forall l: nat | SequencedAt(run, actions, l, n) ensures l == m {
      SequencedOnce(run, actions, l, m, n);
    }
  }

  lemma BeforeLeaving(run: seq<Bus>, actions: seq<Action>, id: nat, j: nat, m: nat, n: nat)
    requires IsRun(run, actions) && j < |actions| && actions[j] == Unregister(id) && Unregister(id) !in actions[..j]
    requires SequencedAt(run, actions, m, n)
    ensures n <= |run[j].log| <==> Unregister(id) !in actions[..m]
  {
    if m < j {
      assert run[m + 1] == Apply(run[m], actions[m]);
      LogGrows(run, actions, m + 1, j);
      assert actions[..m] <= actions[..j];
    } else {
      assert actions[..m][j] == Unregister(id) by {
        assert j != m;
      }
      LogGrows(run, actions, j, m);
    }
  }

  // ---------------------------------------------------------------- what a subscription reads

  lemma FilterKept(filter: EventFilter, capacity: nat, ops: seq<Op>)
    ensures Run(filter, capacity, ops).q.filter == filter
  {
    QueueConservation(filter, capacity, ops);
  }

  lemma {:induction false} PushOpsFill(filter: EventFilter, capacity: nat, events: seq<Event>)
    ensures var h := Run(filter, capacity, PushOps(events));
            h.q == PushAll(Empty(filter, capacity), events) && h.popped == []
  {
    if events != [] {
      var n := |events| - 1;
      PushOpsFill(filter, capacity, events[..n]);
      assert PushOps(events)[..n] == PushOps(events[..n]);
    }
  }

  /** The pops of a subscription's queue are what its consumer took. */
  lemma {:induction false} ReadsArePopped(run: seq<Bus>, actions: seq<Action>, i: nat, id: nat)
    requires IsRun(run, actions) && i < |run|
    ensures TakenBy(run[i], id) == ReadBy(run, actions, i, id)
  {
    if i > 0 {
      ReadsArePopped(run, actions, i - 1, id);
      ReadNext(run, actions, i - 1, id);
    }
  }

  /** It is open until it is closed. */
  lemma {:induction false} ClosedByClosing(run: seq<Bus>, actions: seq<Action>, i: nat, id: nat)
    requires IsRun(run, actions) && i < |run|
    ensures IsClosed(run[i], id) <==> CloseQueue(id) in actions[..i]
  {
    if i > 0 {
      ClosedByClosing(run, actions, i - 1, id);
      ReadNext(run, actions, i - 1, id);
      assert actions[..i] == actions[..i - 1] + [actions[i - 1]];
    }
  }

  lemma ReadNext(run: seq<Bus>, actions: seq<Action>, i: nat, id: nat)
    requires IsRun(run, actions) && i < |actions|
    ensures TakenBy(run[i + 1], id)
         == TakenBy(run[i], id) + if actions[i] == Recv(id) && QueueOf(run[i], id).queue != [] then [QueueOf(run[i], id).queue[0]] else []
    ensures IsClosed(run[i + 1], id) <==> IsClosed(run[i], id) || actions[i] == CloseQueue(id)
  {
    RunInv(run, actions, i);
    ReadStep(run[i], actions[i], id);
  }

  function TakenBy(b: Bus, id: nat): seq<Item> {
    if id in b.subs then Run(b.subs[id].filter, b.capacity, b.subs[id].ops).popped else []
  }

  predicate IsClosed(b: Bus, id: nat) {
    id in b.subs && DoClose in b.subs[id].ops
  }

  lemma ReadStep(b: Bus, a: Action, id: nat)
    requires Inv(b) && Enabled(b, a)
    ensures TakenBy(Apply(b, a), id)
         == TakenBy(b, id) + if a == Recv(id) && QueueOf(b, id).queue != [] then [QueueOf(b, id).queue[0]] else []
    ensures IsClosed(Apply(b, a), id) <==> IsClosed(b, id) || a == CloseQueue(id)
  {
    if id in b.subs {
      var s := b.subs[id];
      if a.PushOne? && a.id == id {
        assert (s.ops + [DoPush(b.log[a.n - 1])])[..|s.ops|] == s.ops;
      } else if a.Recv? && a.id == id {
        assert (s.ops + [DoPop])[..|s.ops|] == s.ops;
      } else if a.CloseQueue? && a.id == id {
        assert (s.ops + [DoClose])[..|s.ops|] == s.ops;
      }
    } else if a.Subscribe? {
      PushOpsFill(a.filter, b.capacity, ReplayEvents(RingAt(b, |b.log|), a.since));
    }
  }

  // ------------------------------------------------------------------ the replay part

  lemma {:induction false} FilterRising(keep: Event -> bool, events: seq<Event>)
    requires Rising(events)
    ensures Rising(Filter(keep, events))
  {
    if events != [] {
      FilterRising(keep, events[1..]);
      var rest := Filter(keep, events[1..]);
      forall e | e in rest ensures events[0].seqNo < e.seqNo {
        var k :| 0 <= k < |events| - 1 && events[1..][k] == e;
      }
    }
  }

  lemma {:induction false} RisingHasNoDuplicate(events: seq<Event>, e: Event)
    requires Rising(events)
    ensures multiset(events)[e] == if e in events then 1 else 0
  {
    if events != [] {
      RisingHasNoDuplicate(events[1..], e);
      assert events == [events[0]] + events[1..];
    }
  }

  lemma ReplayRising(log: seq<Event>, count: nat, bytes: nat, since: Option<nat>)
    requires Numbered(log)
    ensures var replay := ReplayEvents(Retained(Archive(log), count, bytes), since);
            Rising(replay) && forall e :: e in replay ==> e in log
  {
    if since.Some? {
      ReplayIsFilteredLog(log, count, bytes, since.value);
      FilterRising(e => CanArchive(e), log);
      var suffix := Archivable(log)[|Archivable(log)| - |Retained(Archive(log), count, bytes)|..];
      FilterRising((e: Event) => e.seqNo > since.value, suffix);
    } else {
      assert ReplayEvents(Retained(Archive(log), count, bytes), since) == [];
    }
  }

  lemma ReplayIsReplayed(b: Bus, since: Option<nat>)
    ensures ReplayEvents(RingAt(b, |b.log|), since) == Replayed(b, since)
  {
    assert b.log[..|b.log|] == b.log;
    if since.None? {
      assert ReplayEvents(RingAt(b, |b.log|), since) == [];
    } else {
      ReplayIsRetained(b.log, b.count, b.bytes, since.value);
    }
  }

  lemma ReplayIsRetained(log: seq<Event>, count: nat, bytes: nat, since: nat)
    ensures ReplayEvents(Retained(Archive(log), count, bytes), Some(since)) == RetainedAfter(log, count, bytes, since)
  {
    ReplayIsFilteredLog(log, count, bytes, since);
  }

  lemma NewSubscriptionExact(b: Bus, since: Option<nat>, filter: EventFilter)
    requires Inv(b)
    ensures var b' := Apply(b, Subscribe(since, filter));
            Exact(b', b'.subs[b.nextSubscriber], Pending(b', b.nextSubscriber))
  {
    var b' := Apply(b, Subscribe(since, filter));
    var s := b'.subs[b.nextSubscriber];
    var replay := ReplayEvents(RingAt(b, |b.log|), since);
    assert b.log[..|b.log|] == b.log;
    ReplayRising(b.log, b.count, b.bytes, since);
    HandedPushOps(replay);
    assert Pending(b', b.nextSubscriber) == {};
    forall n | 1 <= n <= |b.log| ensures CountedOnce(b', s, {}, n) {
      RisingHasNoDuplicate(replay, b.log[n - 1]);
    }
  }

  // ---------------------------------------------------------------- the other actions

  lemma DueStable(b: Bus, b': Bus, s: Subscription, n: nat)
    requires s.at <= |b.log| && b.log <= b'.log && b'.count == b.count && b'.bytes == b.bytes
    requires 1 <= n <= |b.log|
    ensures Due(b', s, n) == Due(b, s, n)
  {
    assert b'.log[..s.at] == b.log[..s.at];
    assert b'.log[n - 1] == b.log[n - 1];
  }

  lemma SequenceKeepsCount(b: Bus, a: Action, id: nat, n: nat)
    requires Numbered(b.log) && a.Sequence? && id in b.subs && 1 <= n <= |b.log| + 1
    requires Exact(b, b.subs[id], Pending(b, id))
    ensures var pending := Pending(b, id) + if b.subs[id].until.None? then {|b.log| + 1} else {};
            CountedOnce(Apply(b, a), b.subs[id], pending, n)
  {
    var b', s := Apply(b, a), b.subs[id];
    if n == |b.log| + 1 {
      assert b'.log[n - 1] !in Handed(s.ops);
    } else {
      assert CountedOnce(b, s, Pending(b, id), n);
      DueStable(b, b', s, n);
      assert b'.log[n - 1] == b.log[n - 1];
    }
  }

  lemma SequenceKeepsExact(b: Bus, a: Action, id: nat)
    requires Numbered(b.log) && a.Sequence? && id in b.subs && |b.log| + 1 !in b.inflight
    requires Exact(b, b.subs[id], Pending(b, id))
    ensures Exact(Apply(b, a), b.subs[id], Pending(Apply(b, a), id))
  {
    var pending := Pending(b, id) + if b.subs[id].until.None? then {|b.log| + 1} else {};
    assert Pending(Apply(b, a), id) == pending;
    forall n | 1 <= n <= |b.log| + 1 ensures CountedOnce(Apply(b, a), b.subs[id], pending, n) {
      SequenceKeepsCount(b, a, id, n);
    }
  }

  /** Handing over event `n` moves one unit from pending to handed and touches no other event. */
  lemma OneMoreHanded(log: seq<Event>, handed: seq<Event>, pending: set<nat>, n: nat, m: nat)
    requires Numbered(log) && 1 <= n <= |log| && 1 <= m <= |log| && n in pending
    ensures multiset(handed + [log[n - 1]])[log[m - 1]] + (if m in pending - {n} then 1 else 0)
         == multiset(handed)[log[m - 1]] + (if m in pending then 1 else 0)
  {
    assert log[m - 1].seqNo == m && log[n - 1].seqNo == n;
    assert multiset(handed + [log[n - 1]]) == multiset(handed) + multiset{log[n - 1]};
  }

  lemma PushKeepsCount(b: Bus, n: nat, id: nat, m: nat)
    requires Numbered(b.log) && Enabled(b, PushOne(n, id)) && 1 <= m <= |b.log|
    requires Exact(b, b.subs[id], Pending(b, id))
    ensures var b' := Apply(b, PushOne(n, id)); CountedOnce(b', b'.subs[id], Pending(b, id) - {n}, m)
  {
    var b' := Apply(b, PushOne(n, id));
    var s, s' := b.subs[id], b'.subs[id];
    HandedSnoc(s.ops, DoPush(b.log[n - 1]));
    OneMoreHanded(b.log, Handed(s.ops), Pending(b, id), n, m);
    assert CountedOnce(b, s, Pending(b, id), m);
    assert b'.log == b.log && s'.ops == s.ops + [DoPush(b.log[n - 1])];
    DueStable(b, b', s, m);
    assert Due(b', s', m) == Due(b', s, m);
  }

  lemma PushKeepsExact(b: Bus, n: nat, id: nat)
    requires Numbered(b.log) && Enabled(b, PushOne(n, id))
    requires Exact(b, b.subs[id], Pending(b, id))
    ensures var b' := Apply(b, PushOne(n, id)); Exact(b', b'.subs[id], Pending(b', id))
  {
    var b' := Apply(b, PushOne(n, id));
    HandedSnoc(b.subs[id].ops, DoPush(b.log[n - 1]));
    assert Pending(b', id) == Pending(b, id) - {n};
    forall m | 1 <= m <= |b'.log| ensures CountedOnce(b', b'.subs[id], Pending(b, id) - {n}, m) {
      PushKeepsCount(b, n, id, m);
    }
  }

  /** Popping, closing and leaving the map hand over nothing. */
  lemma QuietKeepsExact(b: Bus, a: Action, id: nat)
    requires Numbered(b.log) && Enabled(b, a) && (a.Recv? || a.CloseQueue? || a.Unregister?) && a.id == id
    requires Exact(b, b.subs[id], Pending(b, id))
    ensures Exact(Apply(b, a), Apply(b, a).subs[id], Pending(Apply(b, a), id))
  {
    var b', s := Apply(b, a), b.subs[id];
    assert Pending(b', id) == Pending(b, id);
    if !a.Unregister? {
      HandedSnoc(s.ops, if a.Recv? then DoPop else DoClose);
    }
    forall n | 1 <= n <= |b.log| ensures CountedOnce(b', b'.subs[id], Pending(b, id), n) {
      assert CountedOnce(b, s, Pending(b, id), n);
      DueStable(b, b', s, n);
    }
  }

  lemma OthersKeepExact(b: Bus, a: Action, id: nat)
    requires id in b.subs && Exact(b, b.subs[id], Pending(b, id)) && Enabled(b, a) && id < b.nextSubscriber
    requires !a.Sequence? && !(a.PushOne? && a.id == id)
    requires !((a.Recv? || a.CloseQueue? || a.Unregister?) && a.id == id)
    ensures Apply(b, a).subs[id] == b.subs[id]
    ensures Exact(Apply(b, a), b.subs[id], Pending(Apply(b, a), id))
  {
    var b' := Apply(b, a);
    assert Pending(b', id) == Pending(b, id);
    forall n | 1 <= n <= |b.log| ensures CountedOnce(b', b.subs[id], Pending(b, id), n) {
      assert CountedOnce(b, b.subs[id], Pending(b, id), n);
      DueStable(b, b', b.subs[id], n);
    }
  }

  lemma InvStep(b: Bus, a: Action)
    requires Inv(b) && Enabled(b, a)
    ensures Inv(Apply(b, a))
  {
    var b' := Apply(b, a);
    forall id | id in b'.subs ensures Exact(b', b'.subs[id], Pending(b', id)) {
      if id !in b.subs {
        NewSubscriptionExact(b, a.since, a.filter);
      } else if a.Sequence? {
        SequenceKeepsExact(b, a, id);
      } else if a.PushOne? && a.id == id {
        PushKeepsExact(b, a.n, id);
      } else if (a.Recv? || a.CloseQueue? || a.Unregister?) && a.id == id {
        QuietKeepsExact(b, a, id);
      } else {
        OthersKeepExact(b, a, id);
      }
    }
  }

  lemma {:induction false} RunInv(run: seq<Bus>, actions: seq<Action>, i: nat)
    requires IsRun(run, actions) && i < |run|
    ensures Inv(run[i])
  {
    if i > 0 {
      RunInv(run, actions, i - 1);
      assert run[i - 1 + 1] == Apply(run[i - 1], actions[i - 1]);
      InvStep(run[i - 1], actions[i - 1]);
    }
  }

  // ---------------------------------------------------------------- queues that do not overflow

  lemma PassesPush(h: History, handed: seq<Event>, e: Event)
    requires PassesAll(h, handed) && Evicted(h.q, e) == []
    requires h.q.capacity >= 1
    ensures PassesAll(Step(h, DoPush(e)), handed + [e])
  {
    OneMoreAdmitted(h.q.filter, handed, e);
    var h', more := Step(h, DoPush(e)), if h.q.filter.Admits(e) then [Published(e)] else [];
    assert h'.popped == h.popped && h'.q.queue == h.q.queue + more;
    assert h.popped + (h.q.queue + more) == (h.popped + h.q.queue) + more;
  }

  lemma PassesPop(h: History, handed: seq<Event>)
    requires PassesAll(h, handed)
    ensures PassesAll(Step(h, DoPop), handed)
  {
    var h' := Step(h, DoPop);
    assert h'.popped + h'.q.queue == h.popped + h.q.queue;
  }

  // ---------------------------------------------------------------- order

  lemma OneMoreOrdered(handed: seq<Event>, pending: set<nat>, e: Event)
    requires e.seqNo in pending
    ensures Ordered(handed + [e], pending - {e.seqNo}) <==> Ordered(handed, pending) && IsLeast(e.seqNo, pending)
  {
    var handed' := handed + [e];
    if Ordered(handed', pending - {e.seqNo}) {
      forall x | x in handed ensures x in handed' && x.seqNo < e.seqNo {
        var k :| 0 <= k < |handed| && handed[k] == x;
        assert handed'[k].seqNo < handed'[|handed|].seqNo;
      }
      forall k, l | 0 <= k < l < |handed| ensures handed[k].seqNo < handed[l].seqNo {
        assert handed'[k].seqNo < handed'[l].seqNo;
      }
      forall m | m in pending ensures m == e.seqNo || (m in pending - {e.seqNo} && e in handed' && e.seqNo < m) {
        assert handed'[|handed|] == e;
        assert m != e.seqNo ==> m in pending - {e.seqNo};
      }
    }
    if Ordered(handed, pending) && IsLeast(e.seqNo, pending) {
      forall k, l | 0 <= k < l < |handed'| ensures handed'[k].seqNo < handed'[l].seqNo {
        assert handed[k] in handed;
      }
    }
  }

  lemma PushInOrder(b: Bus, n: nat, id: nat)
    requires Inv(b) && Enabled(b, PushOne(n, id))
    ensures InOrder(Apply(b, PushOne(n, id)), id) <==> InOrder(b, id) && IsLeast(n, Pending(b, id))
  {
    HandedSnoc(b.subs[id].ops, DoPush(b.log[n - 1]));
    assert Pending(Apply(b, PushOne(n, id)), id) == Pending(b, id) - {n};
    OneMoreOrdered(Handed(b.subs[id].ops), Pending(b, id), b.log[n - 1]);
  }

  lemma SequenceKeepsOrder(b: Bus, a: Action, id: nat)
    requires Inv(b) && a.Sequence? && id in b.subs
    ensures InOrder(Apply(b, a), id) <==> InOrder(b, id)
  {
    assert Exact(b, b.subs[id], Pending(b, id));
    var more := if b.subs[id].until.None? then {|b.log| + 1} else {};
    assert Pending(Apply(b, a), id) == Pending(b, id) + more;
  }

  lemma OtherKeepsOrder(b: Bus, a: Action, id: nat)
    requires Inv(b) && Enabled(b, a) && !(a.PushOne? && a.id == id)
    ensures InOrder(Apply(b, a), id) <==> InOrder(b, id)
  {
    var b' := Apply(b, a);
    if id !in b.subs {
      if id in b'.subs {
        NewSubscriptionInOrder(b, a.since, a.filter);
      }
    } else if a.Sequence? {
      SequenceKeepsOrder(b, a, id);
    } else {
      assert Pending(b', id) == Pending(b, id);
      if (a.Recv? || a.CloseQueue?) && a.id == id {
        HandedSnoc(b.subs[id].ops, if a.Recv? then DoPop else DoClose);
      }
      assert Handed(b'.subs[id].ops) == Handed(b.subs[id].ops);
    }
  }

  lemma NewSubscriptionInOrder(b: Bus, since: Option<nat>, filter: EventFilter)
    requires Inv(b)
    ensures InOrder(Apply(b, Subscribe(since, filter)), b.nextSubscriber)
  {
    var b' := Apply(b, Subscribe(since, filter));
    ReplayRising(b.log, b.count, b.bytes, since);
    assert b.log[..|b.log|] == b.log;
    HandedPushOps(ReplayEvents(RingAt(b, |b.log|), since));
    assert Pending(b', b.nextSubscriber) == {};
  }

  lemma StepInTurn(b: Bus, a: Action, id: nat)
    requires Inv(b) && Enabled(b, a)
    ensures InOrder(Apply(b, a), id) <==> InOrder(b, id) && InTurn(b, a, id)
  {
    if a.PushOne? && a.id == id {
      PushInOrder(b, a.n, id);
    } else {
      OtherKeepsOrder(b, a, id);
    }
  }

  ghost predicate OnlyNewest(b: Bus, id: nat) {
    forall n :: n in Pending(b, id) ==> n == |b.log|
  }

  lemma OnlyNewestStep(b: Bus, a: Action, id: nat)
    requires Enabled(b, a) && OnlyNewest(b, id) && (a.Sequence? ==> Quiescent(b))
    ensures OnlyNewest(Apply(b, a), id)
  {
    var b' := Apply(b, a);
    forall n | n in Pending(b', id) ensures n == |b'.log| {
      assert a.Sequence? && n in b.inflight ==> b.inflight[n] == {};
      assert n in Pending(b, id) || (a.Sequence? && n == |b'.log|);
    }
  }

  lemma {:induction false} SerialPending(run: seq<Bus>, actions: seq<Action>, i: nat, id: nat)
    requires IsRun(run, actions) && Serial(run, actions) && i < |run|
    ensures OnlyNewest(run[i], id)
  {
    if i > 0 {
      SerialPending(run, actions, i - 1, id);
      assert run[i - 1 + 1] == Apply(run[i - 1], actions[i - 1]);
      OnlyNewestStep(run[i - 1], actions[i - 1], id);
    }
  }

  lemma Continue(run: seq<Bus>, actions: seq<Action>, a: Action) returns (run': seq<Bus>, actions': seq<Action>)
    requires IsRun(run, actions) && Enabled(run[|run| - 1], a)
    ensures IsRun(run', actions') && run' == run + [Apply(run[|run| - 1], a)] && actions' == actions + [a]
  {
    run', actions' := run + [Apply(run[|run| - 1], a)], actions + [a];
    forall i | 0 <= i < |actions'| ensures Enabled(run'[i], actions'[i]) && run'[i + 1] == Apply(run'[i], actions'[i]) {
      if i < |actions| {
        assert run'[i] == run[i] && run'[i + 1] == run[i + 1];
      }
    }
  }
}
