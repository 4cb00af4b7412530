/**
  The event bus (events.rs, EventBus): a sequence counter, a replay ring bounded by count and by
  bytes, and the map of live subscriptions.
 */
module EventBuses {
  import opened Common
  import opened SubscriberQueues

  datatype Archived = Archived(name: string, seqNo: nat, session: Option<string>, params: seq<Byte>) {
    function StorageBytes(): nat {
      |name| + |params| + 16
    }

    function ToEvent(): Event {
      Event(name, seqNo, session, FromSlice(params))
    }
  }

  predicate CanArchive(e: Event) {
    ToVec(e.params).Some?
  }

  function ToArchived(e: Event): Archived
    requires CanArchive(e)
  {
    Archived(e.name, e.seqNo, e.session, ToVec(e.params).value)
  }

  /** Every event of the log that can be archived, oldest first. */
  function Archive(log: seq<Event>): seq<Archived> {
    if log == [] then []
    else
      var last := log[|log| - 1];
      Archive(log[..|log| - 1]) + if CanArchive(last) then [ToArchived(last)] else []
  }

  function Bytes(ring: seq<Archived>): nat {
    if ring == [] then 0 else ring[0].StorageBytes() + Bytes(ring[1..])
  }

  predicate Fits(ring: seq<Archived>, count: nat, bytes: nat) {
    |ring| <= count && Bytes(ring) <= bytes
  }

  /** Oldest entries are dropped until both caps hold. */
  function Retained(a: seq<Archived>, count: nat, bytes: nat): seq<Archived> {
    if Fits(a, count, bytes) then a else Retained(a[1..], count, bytes)
  }

  lemma {:induction false} RetainedIsSuffix(a: seq<Archived>, count: nat, bytes: nat)
    ensures var r := Retained(a, count, bytes);
            |r| <= |a| && r == a[|a| - |r|..] && Fits(r, count, bytes)
  {
    if !Fits(a, count, bytes) {
      RetainedIsSuffix(a[1..], count, bytes);
    }
  }

  /** No longer suffix fits: the ring gives up only what the caps force it to. */
  lemma {:induction false} RetainedIsLongest(a: seq<Archived>, count: nat, bytes: nat, k: nat)
    requires |Retained(a, count, bytes)| <= |a| - k - 1
    ensures !Fits(a[k..], count, bytes)
  {
    if k > 0 {
      RetainedIsLongest(a[1..], count, bytes, k - 1);
      assert a[1..][k - 1..] == a[k..];
    } else {
      assert a[0..] == a;
    }
  }

  lemma {:induction false} BytesSnoc(ring: seq<Archived>, x: Archived)
    ensures Bytes(ring + [x]) == Bytes(ring) + x.StorageBytes()
  {
    if ring == [] {
      assert ring + [x] == [x];
    } else {
      assert (ring + [x])[1..] == ring[1..] + [x];
      BytesSnoc(ring[1..], x);
    }
  }

  /** Trimming as events arrive equals trimming the whole log once. */
  lemma {:induction false} RetainedIncrementally(a: seq<Archived>, x: Archived, count: nat, bytes: nat)
    ensures Retained(Retained(a, count, bytes) + [x], count, bytes) == Retained(a + [x], count, bytes)
  {
    if Fits(a, count, bytes) {
    } else {
      BytesSnoc(a, x);
      assert (a + [x])[1..] == a[1..] + [x];
      RetainedIncrementally(a[1..], x, count, bytes);
    }
  }

  /** With either cap at zero nothing is ever kept. */
  lemma {:induction false} ZeroCapRetainsNothing(a: seq<Archived>, count: nat, bytes: nat)
    requires count == 0 || bytes == 0
    ensures Retained(a, count, bytes) == []
  {
    if a != [] {
      ZeroCapRetainsNothing(a[1..], count, bytes);
    }
  }

  // ------------------------------------------------------------------ replay

  /** The events a subscription is handed on arrival. */
  function ReplayEvents(ring: seq<Archived>, since: Option<nat>): seq<Event> {
    if ring == [] || since.None? then []
    else
      var last := ring[|ring| - 1];
      ReplayEvents(ring[..|ring| - 1], since) + if last.seqNo > since.value then [last.ToEvent()] else []
  }

  function PushAll(q: QueueState, events: seq<Event>): QueueState {
    if events == [] then q
    else Pushed(PushAll(q, events[..|events| - 1]), events[|events| - 1])
  }

  lemma PushAllSnoc(q: QueueState, events: seq<Event>, e: Event)
    ensures PushAll(q, events + [e]) == Pushed(PushAll(q, events), e)
  {
    assert (events + [e])[..|events|] == events;
  }

  function Admitted(filter: EventFilter, events: seq<Event>): seq<Event> {
    Filter(e => filter.Admits(e), events)
  }

  function Items(events: seq<Event>): (r: seq<Item>)
    ensures |r| == |events|
  {
    seq(|events|, i requires 0 <= i < |events| => Published(events[i]))
  }

  lemma OneMoreAdmitted(filter: EventFilter, events: seq<Event>, e: Event)
    ensures Items(Admitted(filter, events + [e]))
         == Items(Admitted(filter, events)) + if filter.Admits(e) then [Published(e)] else []
  {
    FilterConcat(x => filter.Admits(x), events, [e]);
    var more := if filter.Admits(e) then [e] else [];
    assert Admitted(filter, [e]) == more;
    assert Items(Admitted(filter, events) + more) == Items(Admitted(filter, events)) + Items(more);
  }

  /** A burst no longer than the capacity is queued whole, without eviction or marker. */
  lemma {:induction false} RoomyPushesEvictNothing(filter: EventFilter, capacity: nat, events: seq<Event>)
    requires |events| <= capacity
    ensures PushAll(Empty(filter, capacity), events)
         == Empty(filter, capacity).(queue := Items(Admitted(filter, events)))
  {
    if events != [] {
      var front, e := events[..|events| - 1], events[|events| - 1];
      RoomyPushesEvictNothing(filter, capacity, front);
      assert front + [e] == events;
      OneMoreAdmitted(filter, front, e);
    }
  }

  lemma {:induction false} ReplayBounded(ring: seq<Archived>, since: Option<nat>)
    ensures |ReplayEvents(ring, since)| <= |ring|
  {
    if ring != [] {
      ReplayBounded(ring[..|ring| - 1], since);
    }
  }

  /** The stated reason for the default subscriber capacity of twice the ring. */
  function SubscriberCapacity(ringCapacity: nat, requested: Option<nat>): nat {
    var c := if requested.Some? then requested.value
             else (if ringCapacity > 1 then ringCapacity else 1) * 2;
    if c > 1 then c else 1
  }

  /** What is asked for is given, and at least one; else twice the ring. */
  lemma SubscriberCapacityIs(ringCapacity: nat, c: nat)
    ensures c >= 1 ==> SubscriberCapacity(ringCapacity, Some(c)) == c
    ensures SubscriberCapacity(ringCapacity, Some(0)) == 1
    ensures ringCapacity >= 1 ==> SubscriberCapacity(ringCapacity, None) == 2 * ringCapacity
    ensures SubscriberCapacity(0, None) == 2
  {
  }

  /** With the default capacity a full replay queues every admitted event and evicts nothing. */
  lemma DefaultReplayNeverEvicts(log: seq<Event>, count: nat, bytes: nat, since: Option<nat>, filter: EventFilter)
    ensures var capacity := SubscriberCapacity(count, None);
            var events := ReplayEvents(Retained(Archive(log), count, bytes), since);
            PushAll(Empty(filter, capacity), events)
              == Empty(filter, capacity).(queue := Items(Admitted(filter, events)))
  {
    var ring := Retained(Archive(log), count, bytes);
    RetainedIsSuffix(Archive(log), count, bytes);
    ReplayBounded(ring, since);
    RoomyPushesEvictNothing(filter, SubscriberCapacity(count, None), ReplayEvents(ring, since));
  }

  /** The archivable events of the log. */
  function Archivable(log: seq<Event>): seq<Event> {
    Filter(e => CanArchive(e), log)
  }

  lemma {:induction false} ArchiveMirrorsLog(log: seq<Event>)
    ensures |Archive(log)| == |Archivable(log)|
    ensures forall i :: 0 <= i < |Archive(log)| ==> Archive(log)[i].ToEvent() == Archivable(log)[i]
  {
    if log != [] {
      var front, e := log[..|log| - 1], log[|log| - 1];
      ArchiveMirrorsLog(front);
      assert front + [e] == log;
      FilterConcat(x => CanArchive(x), front, [e]);
    }
  }

  lemma {:induction false} ReplayMirrors(ring: seq<Archived>, events: seq<Event>, since: nat)
    requires |ring| == |events|
    requires forall i :: 0 <= i < |ring| ==> ring[i].ToEvent() == events[i]
    ensures ReplayEvents(ring, Some(since)) == Filter((e: Event) => e.seqNo > since, events)
  {
    var keep := (e: Event) => e.seqNo > since;
    if ring == [] {
    } else {
      var n := |ring| - 1;
      ReplayMirrors(ring[..n], events[..n], since);
      assert events == events[..n] + [events[n]];
      FilterConcat(keep, events[..n], [events[n]]);
      assert ring[n].seqNo == events[n].seqNo;
      assert Filter(keep, [events[n]]) == if keep(events[n]) then [events[n]] else [];
    }
  }

  /**
    Replay equals the filtered full log restricted to the retained suffix: the decoded ring
    entries are the very events that were published.
   */
  lemma ReplayIsFilteredLog(log: seq<Event>, count: nat, bytes: nat, since: nat)
    ensures var ring := Retained(Archive(log), count, bytes);
            |ring| <= |Archivable(log)| &&
            ReplayEvents(ring, Some(since))
              == Filter((e: Event) => e.seqNo > since, Archivable(log)[|Archivable(log)| - |ring|..])
  {
    ArchiveMirrorsLog(log);
    RetainedIsSuffix(Archive(log), count, bytes);
    var ring := Retained(Archive(log), count, bytes);
    var n := |Archivable(log)| - |ring|;
    forall i | 0 <= i < |ring| ensures ring[i].ToEvent() == Archivable(log)[n..][i] {
      assert ring[i] == Archive(log)[n + i];
    }
    ReplayMirrors(ring, Archivable(log)[n..], since);
  }

  /** What events cost the ring: their names, their encoded payloads and 16 bytes each. */
  function Charge(events: seq<Event>): nat {
    if events == [] then 0
    else
      |events[0].name| + (if events[0].params.Encodable? then |events[0].params.bytes| else 0) + 16 + Charge(events[1..])
  }

  lemma {:induction false} BytesAreCharge(ring: seq<Archived>, events: seq<Event>)
    requires |ring| == |events|
    requires forall i :: 0 <= i < |ring| ==> ring[i].ToEvent() == events[i]
    ensures Bytes(ring) == Charge(events)
  {
    if ring != [] {
      BytesAreCharge(ring[1..], events[1..]);
    }
  }

  /** The newest `n` events respect both caps. */
  predicate NewestFit(events: seq<Event>, n: nat, count: nat, bytes: nat) {
    n <= |events| && n <= count && Charge(events[|events| - n..]) <= bytes
  }

  lemma FitsIsNewestFit(a: seq<Archived>, events: seq<Event>, n: nat, count: nat, bytes: nat)
    requires |a| == |events| && n <= |a|
    requires forall i :: 0 <= i < |a| ==> a[i].ToEvent() == events[i]
    ensures Fits(a[|a| - n..], count, bytes) <==> NewestFit(events, n, count, bytes)
  {
    BytesAreCharge(a[|a| - n..], events[|events| - n..]);
  }

  /**
    The ring in terms of what was published: its newest encodable events, as many as respect both
    caps and no fewer.
   */
  lemma RingHoldsAllThatFit(log: seq<Event>, count: nat, bytes: nat)
    ensures var all, kept := Archivable(log), |Retained(Archive(log), count, bytes)|;
            NewestFit(all, kept, count, bytes) && forall more :: kept < more <= |all| ==> !NewestFit(all, more, count, bytes)
  {
    var a, ring := Archive(log), Retained(Archive(log), count, bytes);
    ArchiveMirrorsLog(log);
    RetainedIsSuffix(a, count, bytes);
    FitsIsNewestFit(a, Archivable(log), |ring|, count, bytes);
    forall more | |ring| < more <= |a| ensures !NewestFit(Archivable(log), more, count, bytes) {
      RetainedIsLongest(a, count, bytes, |a| - more);
      FitsIsNewestFit(a, Archivable(log), more, count, bytes);
    }
  }

  // ---------------------------------------------------------------- the object

  lemma OneMoreReplayed(q: QueueState, ring: seq<Archived>, i: nat, since: nat)
    requires i < |ring|
    ensures var before := PushAll(q, ReplayEvents(ring[..i], Some(since)));
            PushAll(q, ReplayEvents(ring[..i + 1], Some(since)))
            == if ring[i].seqNo > since then Pushed(before, ring[i].ToEvent()) else before
  {
    assert ring[..i + 1] == ring[..i] + [ring[i]];
    var upTo := ring[..i + 1];
    assert |upTo| == i + 1 && upTo[i] == ring[i] && upTo[..i] == ring[..i];
    assert ReplayEvents(upTo, Some(since))
        == ReplayEvents(ring[..i], Some(since)) + if ring[i].seqNo > since then [ring[i].ToEvent()] else [];
    assert ReplayEvents(ring[..i], Some(since)) + [] == ReplayEvents(ring[..i], Some(since));
    if ring[i].seqNo > since {
      PushAllSnoc(q, ReplayEvents(ring[..i], Some(since)), ring[i].ToEvent());
    }
  }

  /** The replay loop of subscribe. */
  method Replay(queue: SubscriberQueue, ring: seq<Archived>, since: nat)
    modifies queue
    ensures queue.State() == PushAll(old(queue.State()), ReplayEvents(ring, Some(since)))
  {
    ghost var before := queue.State();
    for i := 0 to |ring|
      invariant queue.State() == PushAll(before, ReplayEvents(ring[..i], Some(since)))
    {
      OneMoreReplayed(before, ring, i, since);
      if ring[i].seqNo > since {
        queue.Push(ring[i].ToEvent());
      }
    }
    assert ring[..|ring|] == ring;
  }

  class EventBus {
    const ringCapacity: nat
    const ringByteCapacity: nat
    const subscriberCapacity: nat
    var nextSeq: nat
    var ring: seq<Archived>
    var ringBytes: nat
    var subscribers: map<nat, SubscriberQueue>
    var nextSubscriber: nat
    ghost var log: seq<Event>

    /**
      The ring is exactly what the caps retain of the published log, and its byte count is the
      exact sum of its entries.
     */
    ghost predicate Valid()
      reads this
    {
      && nextSeq == |log| + 1
      && (forall i :: 0 <= i < |log| ==> log[i].seqNo == i + 1)
      && ring == Retained(Archive(log), ringCapacity, ringByteCapacity)
      && ringBytes == Bytes(ring)
      && subscriberCapacity >= 1
      && (forall id :: id in subscribers ==> id < nextSubscriber)
    }

    constructor WithCapacities(ringCapacity: nat, ringByteCapacity: nat, subscriberCapacity: Option<nat>)
      ensures Valid() && log == [] && subscribers == map[]
      ensures this.ringCapacity == ringCapacity && this.ringByteCapacity == ringByteCapacity
      ensures this.subscriberCapacity == SubscriberCapacity(ringCapacity, subscriberCapacity)
    {
      this.ringCapacity, this.ringByteCapacity := ringCapacity, ringByteCapacity;
      this.subscriberCapacity := SubscriberCapacity(ringCapacity, subscriberCapacity);
      nextSeq, ring, ringBytes, subscribers, nextSubscriber := 1, [], 0, map[], 0;
      log := [];
    }

    /** The part of publish under the bus lock: number, archive, trim, snapshot the queues. */
    method Sequence(name: string, params: JsonValue, session: Option<string>)
      returns (event: Event, queues: set<SubscriberQueue>)
      requires Valid()
      modifies this
      ensures Valid() && event == Event(name, old(nextSeq), session, params)
      ensures log == old(log) + [event] && queues == subscribers.Values
      ensures subscribers == old(subscribers) && nextSubscriber == old(nextSubscriber)
    {
      event := Event(name, nextSeq, session, params);
      nextSeq := nextSeq + 1;
      log := log + [event];
      assert log[..|log| - 1] == old(log);
      if ringCapacity > 0 && ringByteCapacity > 0 && ToVec(event.params).Some? {
        var archived := ToArchived(event);
        BytesSnoc(ring, archived);
        RetainedIncrementally(Archive(old(log)), archived, ringCapacity, ringByteCapacity);
        ringBytes := ringBytes + archived.StorageBytes();
        ring := ring + [archived];
        while |ring| > ringCapacity || ringBytes > ringByteCapacity
          invariant ringBytes == Bytes(ring)
          invariant Retained(ring, ringCapacity, ringByteCapacity)
                 == Retained(Archive(log), ringCapacity, ringByteCapacity)
          invariant nextSeq == old(nextSeq) + 1 && log == old(log) + [event]
          invariant subscribers == old(subscribers) && nextSubscriber == old(nextSubscriber)
          decreases |ring|
        {
          if ring == [] {
            break;
          }
          var oldest := ring[0];
          ring := ring[1..];
          ringBytes := ringBytes - oldest.StorageBytes();
        }
      } else if ringCapacity == 0 || ringByteCapacity == 0 {
        ZeroCapRetainsNothing(Archive(old(log)), ringCapacity, ringByteCapacity);
        ZeroCapRetainsNothing(Archive(log), ringCapacity, ringByteCapacity);
      } else {
        assert Archive(log) == Archive(old(log));
      }
      queues := subscribers.Values;
    }

    method Publish(name: string, params: JsonValue, session: Option<string>)
      requires Valid()
      modifies this, subscribers.Values
      ensures Valid() && subscribers == old(subscribers)
      ensures log == old(log) + [Event(name, old(nextSeq), session, params)]
      ensures forall id :: id in subscribers ==>
                subscribers[id].State() == Pushed(old(subscribers[id].State()), log[|log| - 1])
    {
      var event, queues := Sequence(name, params, session);
      var rest := queues;
      while rest != {}
        invariant rest <= queues == old(subscribers).Values
        invariant forall q :: q in queues - rest ==> q.State() == Pushed(old(q.State()), event)
        invariant forall q :: q in rest ==> q.State() == old(q.State())
        invariant Valid() && subscribers == old(subscribers) && log == old(log) + [event]
        decreases rest
      {
        var q :| q in rest;
        q.Push(event);
        rest := rest - {q};
      }
      forall id | id in subscribers
        ensures subscribers[id].State() == Pushed(old(subscribers[id].State()), event)
      {
        assert subscribers[id] in queues;
      }
    }

    /** Replays the ring after `since` into a fresh queue and registers it. */
    method Subscribe(since: Option<nat>, filter: EventFilter) returns (id: nat, queue: SubscriberQueue)
      requires Valid()
      modifies this
      ensures Valid() && fresh(queue) && id == old(nextSubscriber)
      ensures subscribers == old(subscribers)[id := queue] && id !in old(subscribers)
      ensures queue.State() == PushAll(Empty(filter, subscriberCapacity), ReplayEvents(ring, since))
      ensures log == old(log) && ring == old(ring)
    {
      queue := new SubscriberQueue(filter, subscriberCapacity);
      if since.Some? {
        Replay(queue, ring, since.value);
      }
      id := nextSubscriber;
      nextSubscriber := nextSubscriber + 1;
      subscribers := subscribers[id := queue];
    }

    /** The bus's half of dropping a stream. */
    method Unsubscribe(id: nat)
      requires Valid()
      modifies this
      ensures Valid() && subscribers == old(subscribers) - {id}
      ensures log == old(log) && ring == old(ring) && nextSubscriber == old(nextSubscriber)
    {
      subscribers := subscribers - {id};
    }

    method CurrentSeq() returns (seqNo: nat)
      requires Valid()
      ensures seqNo == |log|
    {
      seqNo := nextSeq - 1;
    }
  }
}
