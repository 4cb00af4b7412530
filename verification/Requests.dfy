/**
  Request correlation across connections (client.rs, ClientCore; connection.rs for what a dropped connection does).
  Requests, the reader and the lifecycle interleave at every await.
 */
module Requests {
  import opened Common

  datatype Outcome = Response(result: nat) | TimedOut | Disconnected

  /** How far a request has got; `conn` is the connection whose writer it cloned. */
  datatype Phase =
    | Numbered
    | HasWriter(conn: nat)
    | Inserted(conn: nat)
    | SendFailed(conn: nat)
    | Sent(conn: nat)
    | Expired(conn: nat)      // the timeout fired; its entry is still to be removed
    | Cancelled               // its future was dropped
    | Done(outcome: Outcome)

  datatype Life =
    | Down
    | Up(conn: nat)
    | Dropped(conn: nat)      // run_once returned
    | Cleared(conn: nat)      // the writer slot is empty again
    | Draining(conn: nat)     // fail_pending took the map and is answering it

  datatype Client = Client(
    lastId: nat, phase: map<nat, Phase>,
    pending: set<nat>,            // ids in the pending map
    slot: map<nat, Outcome>,      // values sent to a request's channel
    draining: set<nat>,           // entries fail_pending has taken and not yet answered
    writer: Option<nat>, conns: nat, closed: set<nat>, life: Life,
    routed: set<(nat, nat)>)      // responses that arrived: (id, result)

  datatype Action =
    | Begin
    | CloneWriter(id: nat)
    | Insert(id: nat)
    | Send(id: nat)
    | RemoveUnsent(id: nat)
    | Expire(id: nat)
    | RemoveExpired(id: nat)
    | Receive(id: nat)
    | Cancel(id: nat)
    | Route(id: nat, result: nat)
    | Open
    | InstallWriter
    | Drop
    | CloseChannel(conn: nat)
    | ClearWriter
    | TakePending
    | FailOne(id: nat)
    | Settle

  predicate Enabled(w: Client, a: Action) {
    match a
    case Begin => true
    case CloneWriter(id) => id in w.phase && w.phase[id].Numbered?
    case Insert(id) => id in w.phase && w.phase[id].HasWriter?
    case Send(id) => id in w.phase && w.phase[id].Inserted?
    case RemoveUnsent(id) => id in w.phase && w.phase[id].SendFailed?
    case Expire(id) => id in w.phase && w.phase[id].Sent? && id !in w.slot
    case RemoveExpired(id) => id in w.phase && w.phase[id].Expired?
    case Receive(id) => id in w.phase && w.phase[id].Sent? && id in w.slot
    case Cancel(id) => id in w.phase && !w.phase[id].Done? && !w.phase[id].Cancelled?
    case Route(id, result) => true
    case Open => w.life == Down
    case InstallWriter => w.life.Up?
    case Drop => w.life.Up?
    case CloseChannel(c) => c < w.conns
    case ClearWriter => w.life.Dropped?
    case TakePending => w.life.Cleared?
    case FailOne(id) => id in w.draining
    case Settle => w.life.Draining? && w.draining == {}
  }

  function To(w: Client, id: nat, p: Phase): Client {
    w.(phase := w.phase[id := p])
  }

  function Apply(w: Client, a: Action): Client
    requires Enabled(w, a)
  {
    match a
    case Begin => To(w, w.lastId + 1, Numbered).(lastId := w.lastId + 1)
    case CloneWriter(id) => To(w, id, if w.writer.None? then Done(Disconnected) else HasWriter(w.writer.value))
    case Insert(id) => To(w, id, Inserted(w.phase[id].conn)).(pending := w.pending + {id})
    case Send(id) =>
      var c := w.phase[id].conn;
      To(w, id, if c in w.closed then SendFailed(c) else Sent(c))
    case RemoveUnsent(id) => To(w, id, Done(Disconnected)).(pending := w.pending - {id})
    case Expire(id) => To(w, id, Expired(w.phase[id].conn))
    case RemoveExpired(id) => To(w, id, Done(TimedOut)).(pending := w.pending - {id})
    case Receive(id) => To(w, id, Done(w.slot[id]))
    case Cancel(id) => To(w, id, Cancelled)
    case Route(id, result) =>
      var w' := w.(routed := w.routed + {(id, result)});
      if id in w.pending then w'.(pending := w.pending - {id}, slot := w.slot[id := Response(result)]) else w'
    case Open => w.(life := Up(w.conns), conns := w.conns + 1)
    case InstallWriter => w.(writer := Some(w.life.conn))
    case Drop => w.(life := Dropped(w.life.conn))
    case CloseChannel(c) => w.(closed := w.closed + {c})
    case ClearWriter => w.(writer := None, life := Cleared(w.life.conn))
    case TakePending => w.(draining := w.pending, pending := {}, life := Draining(w.life.conn))
    case FailOne(id) => w.(draining := w.draining - {id}, slot := w.slot[id := Disconnected])
    case Settle => w.(life := Down)
  }

  ghost predicate IsRun(run: seq<Client>, actions: seq<Action>) {
    && |run| == |actions| + 1
    && run[0] == Client(0, map[], {}, map[], {}, None, 0, {}, Down, {})
    && forall i :: 0 <= i < |actions| ==> Enabled(run[i], actions[i]) && run[i + 1] == Apply(run[i], actions[i])
  }

  /** Dropping a connection closes its channel before fail_pending takes the map. */
  predicate Prompt(w: Client, a: Action) {
    a.TakePending? && w.life.Cleared? ==> w.life.conn in w.closed
  }

  /** The connection is open or its teardown has not reached fail_pending. */
  predicate Standing(w: Client, c: nat) {
    !w.life.Down? && !w.life.Draining? && w.life.conn == c
  }

  // ---------------------------------------------------------------- correlation

  /** One id, one request: every entry belongs to a numbered request and lives in one place. */
  ghost predicate Correlated(w: Client) {
    && (forall id :: id in w.phase ==> 1 <= id <= w.lastId)
    && w.pending <= w.phase.Keys && w.draining <= w.phase.Keys && w.slot.Keys <= w.phase.Keys
    && (forall id :: id in w.pending ==> id !in w.draining && id !in w.slot)
    && (forall id :: id in w.draining ==> id !in w.slot)
    && (forall id :: id in w.phase && (w.phase[id].Numbered? || w.phase[id].HasWriter?) ==>
          id !in w.pending && id !in w.draining && id !in w.slot)
    && (w.draining != {} ==> w.life.Draining?)
  }

  /** A response seen by a request arrived under that request's own id. */
  ghost predicate OwnAnswers(w: Client) {
    && (forall id :: id in w.slot && w.slot[id].Response? ==> (id, w.slot[id].result) in w.routed)
    && (forall id :: id in w.phase && w.phase[id].Done? && w.phase[id].outcome.Response? ==>
          (id, w.phase[id].outcome.result) in w.routed)
  }

  lemma CorrelatedStep(w: Client, a: Action)
    requires Correlated(w) && Enabled(w, a)
    ensures Correlated(Apply(w, a))
  {
  }

  // ---------------------------------------------------------------- no request is stranded

  /** A request that was sent can still be answered: its channel's other end is held somewhere. */
  ghost predicate Answerable(w: Client) {
    && (forall id :: id in w.phase && (w.phase[id].Inserted? || w.phase[id].Sent?) ==>
          id in w.pending || id in w.draining || id in w.slot)
    && (forall id :: id in w.phase && !w.phase[id].Numbered? && !w.phase[id].Cancelled? && !w.phase[id].Done? ==>
          w.phase[id].conn < w.conns)
    && (w.writer.Some? ==> (w.life.Up? || w.life.Dropped?) && w.writer.value == w.life.conn)
    && (!w.life.Down? ==> w.life.conn < w.conns)
  }

  /** Connections past fail_pending are closed and leave no sent request in the map. */
  ghost predicate Drained(w: Client) {
    && (forall c: nat :: c < w.conns && !Standing(w, c) ==> c in w.closed)
    && (forall id :: id in w.pending && id in w.phase && w.phase[id].Sent? ==> Standing(w, w.phase[id].conn))
  }

  lemma AnswerableStep(w: Client, a: Action)
    requires Correlated(w) && Answerable(w) && Enabled(w, a)
    ensures Answerable(Apply(w, a))
  {
  }

  lemma OwnAnswersStep(w: Client, a: Action)
    requires OwnAnswers(w) && Enabled(w, a)
    ensures OwnAnswers(Apply(w, a))
  {
  }

  lemma DrainedStep(w: Client, a: Action)
    requires Correlated(w) && Answerable(w) && Drained(w) && Enabled(w, a) && Prompt(w, a)
    ensures Drained(Apply(w, a))
  {
  }

  lemma {:induction false} RunOk(run: seq<Client>, actions: seq<Action>, i: nat)
    requires IsRun(run, actions) && i < |run|
    ensures Correlated(run[i]) && OwnAnswers(run[i]) && Answerable(run[i])
  {
    if i > 0 {
      RunOk(run, actions, i - 1);
      var w, a := run[i - 1], actions[i - 1];
      assert run[i - 1 + 1] == Apply(w, a);
      CorrelatedStep(w, a);
      AnswerableStep(w, a);
      OwnAnswersStep(w, a);
    }
  }

  lemma {:induction false} RunDrained(run: seq<Client>, actions: seq<Action>, i: nat)
    requires IsRun(run, actions) && i < |run|
    requires forall k :: 0 <= k < i ==> Prompt(run[k], actions[k])
    ensures Drained(run[i])
  {
    if i > 0 {
      RunDrained(run, actions, i - 1);
      RunOk(run, actions, i - 1);
      assert run[i - 1 + 1] == Apply(run[i - 1], actions[i - 1]);
      DrainedStep(run[i - 1], actions[i - 1]);
    }
  }

  /**
    No request hangs on a dead connection, over every interleaving with its teardown: once
    fail_pending has taken the map, nothing sent on that connection is left in it. A sent request
    has its answer or is about to be given one, and any earlier request will see its send fail.
   */
  lemma NoRequestStranded(run: seq<Client>, actions: seq<Action>, i: nat, id: nat)
    requires IsRun(run, actions) && i < |run|
    requires forall k :: 0 <= k < i ==> Prompt(run[k], actions[k])
    requires id in run[i].phase
    ensures var w := run[i]; var p := w.phase[id];
            && (p.Sent? && !Standing(w, p.conn) ==> id !in w.pending && (id in w.slot || id in w.draining))
            && (p.Inserted? && !Standing(w, p.conn) ==> Apply(w, Send(id)).phase[id].SendFailed?)
  {
    RunOk(run, actions, i);
    RunDrained(run, actions, i);
  }

  lemma ResolvedStep(w: Client, a: Action, id: nat)
    requires Correlated(w) && Answerable(w) && Enabled(w, a) && id in w.phase
    ensures var w' := Apply(w, a);
            && id in w'.phase
            && (w.phase[id].Done? ==> w'.phase[id] == w.phase[id])
            && (id in w.slot ==> id in w'.slot && w'.slot[id] == w.slot[id])
  {
  }

  /** A finished request stays finished, and the value in a request's channel is never replaced. */
  lemma {:induction false} ResolvedAtMostOnce(run: seq<Client>, actions: seq<Action>, i: nat, j: nat, id: nat)
    requires IsRun(run, actions) && i <= j < |run| && id in run[i].phase
    ensures id in run[j].phase
    ensures run[i].phase[id].Done? ==> run[j].phase[id] == run[i].phase[id]
    ensures id in run[i].slot ==> id in run[j].slot && run[j].slot[id] == run[i].slot[id]
    decreases j - i
  {
    if i < j {
      ResolvedAtMostOnce(run, actions, i, j - 1, id);
      RunOk(run, actions, j - 1);
      ResolvedStep(run[j - 1], actions[j - 1], id);
      assert run[j - 1 + 1] == Apply(run[j - 1], actions[j - 1]);
    }
  }

  /** A request is answered only by a response that bore its own id; ids are never reused. */
  lemma OnlyItsOwnAnswer(run: seq<Client>, actions: seq<Action>, i: nat, id: nat)
    requires IsRun(run, actions) && i < |run|
    ensures id in run[i].phase && run[i].phase[id].Done? && run[i].phase[id].outcome.Response? ==>
              (id, run[i].phase[id].outcome.result) in run[i].routed
    ensures i < |actions| && actions[i].Begin? ==>
              run[i].lastId + 1 !in run[i].phase && run[i].lastId + 1 in run[i + 1].phase
  {
    RunOk(run, actions, i);
    if i < |actions| {
      assert run[i + 1] == Apply(run[i], actions[i]);
    }
  }

  // ---------------------------------------------------------------- how a request ends

  /** The `i`-th action is a response that found the entry of `id` in the map. */
  predicate RoutedAt(run: seq<Client>, actions: seq<Action>, i: nat, id: nat, result: nat) {
    i < |run| && i < |actions| && actions[i] == Route(id, result) && id in run[i].pending
  }

  ghost predicate RoutedBefore(run: seq<Client>, actions: seq<Action>, j: nat, id: nat, result: nat) {
    exists i: nat :: i < j && RoutedAt(run, actions, i, id, result)
  }

  predicate Holds(w: Client, id: nat, outcome: Outcome) {
    id in w.slot && w.slot[id] == outcome
  }

  /** A channel is given a value once: the response that took the entry, or a disconnect. */
  lemma SlotStep(w: Client, a: Action, id: nat, result: nat)
    requires Correlated(w) && Enabled(w, a)
    ensures Holds(Apply(w, a), id, Response(result)) <==>
              Holds(w, id, Response(result)) || (a == Route(id, result) && id in w.pending)
    ensures !Holds(w, id, TimedOut) ==> !Holds(Apply(w, a), id, TimedOut)
  {
  }

  lemma SlotNext(run: seq<Client>, actions: seq<Action>, j: nat, id: nat, result: nat)
    requires IsRun(run, actions) && j < |actions|
    ensures Holds(run[j + 1], id, Response(result)) <==>
              Holds(run[j], id, Response(result)) || RoutedAt(run, actions, j, id, result)
    ensures !Holds(run[j], id, TimedOut) ==> !Holds(run[j + 1], id, TimedOut)
  {
    RunOk(run, actions, j);
    SlotStep(run[j], actions[j], id, result);
  }

  lemma RoutedLast(run: seq<Client>, actions: seq<Action>, j: nat, id: nat, result: nat)
    requires j > 0
    ensures RoutedBefore(run, actions, j, id, result) <==>
              RoutedBefore(run, actions, j - 1, id, result) || RoutedAt(run, actions, j - 1, id, result)
  {
  }

  lemma {:induction false} SlotIsRouted(run: seq<Client>, actions: seq<Action>, j: nat, id: nat, result: nat)
    requires IsRun(run, actions) && j < |run|
    ensures Holds(run[j], id, Response(result)) <==> RoutedBefore(run, actions, j, id, result)
    ensures !Holds(run[j], id, TimedOut)
  {
    if j > 0 {
      SlotIsRouted(run, actions, j - 1, id, result);
      SlotNext(run, actions, j - 1, id, result);
      RoutedLast(run, actions, j, id, result);
    }
  }

  /**
    A response reaches the request it names: if its entry was in the map, the request receives that
    result when it next looks, however much later, unless it has ended otherwise.
   */
  lemma RoutedReachesRequest(run: seq<Client>, actions: seq<Action>, i: nat, j: nat, id: nat, result: nat)
    requires IsRun(run, actions) && i < j < |run| && RoutedAt(run, actions, i, id, result)
    requires id in run[j].phase && run[j].phase[id].Sent?
    ensures Enabled(run[j], Receive(id))
    ensures Apply(run[j], Receive(id)).phase[id] == Done(Response(result))
  {
    assert RoutedBefore(run, actions, j, id, result);
    SlotIsRouted(run, actions, j, id, result);
  }

  predicate Ended(w: Client, id: nat) {
    id in w.phase && w.phase[id].Done?
  }

  /** Every way a request can end. */
  lemma EndingStep(w: Client, a: Action, id: nat)
    requires Correlated(w) && Answerable(w) && Enabled(w, a) && !Ended(w, id) && Ended(Apply(w, a), id)
    ensures var o := Apply(w, a).phase[id].outcome;
            || (a == Receive(id) && Holds(w, id, o))
            || (a == RemoveExpired(id) && o == TimedOut)
            || (a == RemoveUnsent(id) && o == Disconnected)
            || (a == CloneWriter(id) && w.writer.None? && o == Disconnected)
  {
  }

  lemma {:induction false} EndedBy(run: seq<Client>, actions: seq<Action>, j: nat, id: nat) returns (m: nat)
    requires IsRun(run, actions) && j < |run| && Ended(run[j], id)
    ensures m < j && !Ended(run[m], id) && Ended(run[m + 1], id) && run[m + 1].phase[id] == run[j].phase[id]
  {
    if Ended(run[j - 1], id) {
      m := EndedBy(run, actions, j - 1, id);
      ResolvedAtMostOnce(run, actions, j - 1, j, id);
    } else {
      m := j - 1;
    }
  }

  /** Request `id` received `result`: a response took its entry, and it looked after that. */
  ghost predicate ReceivedBefore(run: seq<Client>, actions: seq<Action>, j: nat, id: nat, result: nat) {
    exists m: nat :: m < j && m < |actions| && actions[m] == Receive(id) && RoutedBefore(run, actions, m, id, result)
  }

  lemma EndOfStep(run: seq<Client>, actions: seq<Action>, m: nat, j: nat, id: nat)
    requires IsRun(run, actions) && m < j < |run| && (actions[m] == Receive(id) || actions[m] == RemoveExpired(id))
    ensures Ended(run[j], id)
    ensures actions[m] == RemoveExpired(id) ==> run[j].phase[id].outcome == TimedOut
    ensures actions[m] == Receive(id) ==> Holds(run[m], id, run[j].phase[id].outcome)
  {
    assert run[m + 1] == Apply(run[m], actions[m]);
    ResolvedAtMostOnce(run, actions, m + 1, j, id);
  }

  /**
    How a request ends, exactly: with a response if and only if that response took its entry and the
    request then looked; timed out if and only if its timeout fired and removed the entry;
    disconnected in every other case.
   */
  lemma EndsExactlySo(run: seq<Client>, actions: seq<Action>, j: nat, id: nat, result: nat)
    requires IsRun(run, actions) && j < |run| && Ended(run[j], id)
    ensures run[j].phase[id].outcome == Response(result) <==> ReceivedBefore(run, actions, j, id, result)
    ensures run[j].phase[id].outcome == TimedOut <==> RemoveExpired(id) in actions[..j]
  {
    var m := EndedBy(run, actions, j, id);
    RunOk(run, actions, m);
    assert run[m + 1] == Apply(run[m], actions[m]);
    EndingStep(run[m], actions[m], id);
    SlotIsRouted(run, actions, m, id, result);
    assert actions[..j][m] == actions[m];
    forall l: nat | l < j && actions[l] == Receive(id) && RoutedBefore(run, actions, l, id, result)
      ensures run[j].phase[id].outcome == Response(result)
    {
      EndOfStep(run, actions, l, j, id);
      SlotIsRouted(run, actions, l, id, result);
    }
    forall l: nat | l < j && actions[l] == RemoveExpired(id) ensures run[j].phase[id].outcome == TimedOut {
      EndOfStep(run, actions, l, j, id);
    }
  }

  /** A sent request with no answer may time out at any moment, whatever else happens, and its entry goes with it. */
  lemma TimesOutOnItsOwn(w: Client, id: nat)
    requires id in w.phase && w.phase[id].Sent? && id !in w.slot
    ensures Enabled(w, Expire(id)) && Enabled(Apply(w, Expire(id)), RemoveExpired(id))
    ensures var w' := Apply(Apply(w, Expire(id)), RemoveExpired(id));
            && w'.phase == w.phase[id := Done(TimedOut)] && w'.pending == w.pending - {id} && w'.slot == w.slot
  {
  }

  predicate IsCancelled(w: Client, id: nat) {
    id in w.phase && w.phase[id].Cancelled?
  }

  lemma CancelStep(w: Client, a: Action, id: nat)
    requires Correlated(w) && Enabled(w, a)
    ensures IsCancelled(Apply(w, a), id) <==> IsCancelled(w, id) || a == Cancel(id)
  {
  }

  lemma CancelNext(run: seq<Client>, actions: seq<Action>, j: nat, id: nat)
    requires IsRun(run, actions) && j < |actions|
    ensures IsCancelled(run[j + 1], id) <==> IsCancelled(run[j], id) || actions[j] == Cancel(id)
  {
    RunOk(run, actions, j);
    CancelStep(run[j], actions[j], id);
  }

  /** A request is cancelled exactly when its future was dropped; nothing else ends it so. */
  lemma {:induction false} CancelledExactlyWhen(run: seq<Client>, actions: seq<Action>, j: nat, id: nat)
    requires IsRun(run, actions) && j < |run|
    ensures IsCancelled(run[j], id) <==> Cancel(id) in actions[..j]
  {
    if j > 0 {
      CancelledExactlyWhen(run, actions, j - 1, id);
      CancelNext(run, actions, j - 1, id);
      assert actions[..j] == actions[..j - 1] + [actions[j - 1]];
    }
  }

  /** Own steps left to a request before it is done, given that nothing else happens. */
  function StepsLeft(p: Phase): nat {
    match p
    case Numbered => 4
    case HasWriter(_) => 3
    case Inserted(_) => 2
    case SendFailed(_) => 1
    case Sent(_) => 1
    case Expired(_) => 1
    case Cancelled => 0
    case Done(_) => 0
  }

  function OwnStep(w: Client, id: nat): Action
    requires id in w.phase
  {
    match w.phase[id]
    case Numbered => CloneWriter(id)
    case HasWriter(_) => Insert(id)
    case Inserted(_) => Send(id)
    case SendFailed(_) => RemoveUnsent(id)
    case Expired(_) => RemoveExpired(id)
    case _ => Receive(id)
  }

  /**
    While disconnected every unfinished request can take a step of its own, even without a
    timeout, and each such step brings it nearer to an outcome.
   */
  lemma EveryRequestFinishes(run: seq<Client>, actions: seq<Action>, i: nat, id: nat)
    requires IsRun(run, actions) && i < |run|
    requires forall k :: 0 <= k < i ==> Prompt(run[k], actions[k])
    requires run[i].life == Down && id in run[i].phase && StepsLeft(run[i].phase[id]) > 0
    ensures Enabled(run[i], OwnStep(run[i], id))
    ensures StepsLeft(Apply(run[i], OwnStep(run[i], id)).phase[id]) < StepsLeft(run[i].phase[id])
  {
    RunOk(run, actions, i);
    RunDrained(run, actions, i);
  }

  // ---------------------------------------------------------------- a channel that closes late

  /** Removes the entry of `id` from the pending map. */
  predicate Takes(a: Action, id: nat) {
    a.TakePending? || a == RemoveUnsent(id) || a == RemoveExpired(id) || (a.Route? && a.id == id)
  }

  /** The `k`-th action put the entry of `id` in the map and none up to the `i`-th took it out. */
  predicate HeldSince(actions: seq<Action>, k: nat, i: nat, id: nat) {
    k < i <= |actions| && actions[k] == Insert(id) && forall t :: k < t < i ==> !Takes(actions[t], id)
  }

  lemma PendingStep(w: Client, a: Action, id: nat)
    requires Enabled(w, a)
    ensures id in Apply(w, a).pending <==> a == Insert(id) || (id in w.pending && !Takes(a, id))
  {
  }

  lemma {:induction false} PendingIsHeld(run: seq<Client>, actions: seq<Action>, i: nat, id: nat)
    requires IsRun(run, actions) && i < |run|
    ensures id in run[i].pending <==> exists k :: HeldSince(actions, k, i, id)
  {
    if i > 0 {
      PendingIsHeld(run, actions, i - 1, id);
      var a := actions[i - 1];
      assert run[i - 1 + 1] == Apply(run[i - 1], a);
      PendingStep(run[i - 1], a, id);
      if a == Insert(id) {
        assert HeldSince(actions, i - 1, i, id);
      } else if id in run[i].pending {
        var k :| HeldSince(actions, k, i - 1, id);
        assert HeldSince(actions, k, i, id);
      } else if k :| HeldSince(actions, k, i, id) {
        assert HeldSince(actions, k, i - 1, id);
        assert false;
      }
    }
  }

  /** The `m`-th action sent request `id`, over a channel that was still open. */
  predicate SentOpen(run: seq<Client>, actions: seq<Action>, m: nat, id: nat, c: nat) {
    m < |run| && m < |actions| && actions[m] == Send(id) && c !in run[m].closed
  }

  /** Past its insert the request keeps to connection `c`. */
  predicate KeepsTo(w: Client, id: nat, c: nat) {
    && id in w.phase && !w.phase[id].Numbered? && !w.phase[id].HasWriter?
    && (w.phase[id].Inserted? || w.phase[id].Sent? ==> w.phase[id].conn == c)
  }

  predicate IsSent(w: Client, id: nat) {
    id in w.phase && w.phase[id].Sent?
  }

  lemma InsertKeepsTo(w: Client, id: nat, c: nat)
    requires id in w.phase && w.phase[id] == HasWriter(c)
    ensures KeepsTo(Apply(w, Insert(id)), id, c) && !IsSent(Apply(w, Insert(id)), id)
  {
  }

  lemma KeepsToStep(w: Client, a: Action, id: nat, c: nat)
    requires Correlated(w) && Enabled(w, a) && KeepsTo(w, id, c)
    ensures KeepsTo(Apply(w, a), id, c)
    ensures IsSent(Apply(w, a), id) && !IsSent(w, id) ==> a == Send(id) && c !in w.closed
  {
  }

  ghost predicate SentBetween(run: seq<Client>, actions: seq<Action>, k: nat, i: nat, id: nat, c: nat) {
    exists m: nat :: k < m < i && SentOpen(run, actions, m, id, c)
  }

  lemma SentLast(run: seq<Client>, actions: seq<Action>, k: nat, i: nat, id: nat, c: nat)
    requires k < i - 1 && (SentBetween(run, actions, k, i - 1, id, c) || SentOpen(run, actions, i - 1, id, c))
    ensures SentBetween(run, actions, k, i, id, c)
  {
  }

  /** After its insert a request belongs to one connection, and it is sent while that is open. */
  lemma {:induction false} SentAfterInsert(run: seq<Client>, actions: seq<Action>, k: nat, i: nat, id: nat, c: nat)
    requires IsRun(run, actions) && k < i < |run| && actions[k] == Insert(id)
    requires id in run[k].phase && run[k].phase[id] == HasWriter(c)
    ensures KeepsTo(run[i], id, c)
    ensures IsSent(run[i], id) ==> SentBetween(run, actions, k, i, id, c)
    decreases i
  {
    if k == i - 1 {
      assert run[k + 1] == Apply(run[k], Insert(id));
      InsertKeepsTo(run[k], id, c);
    } else {
      SentAfterInsert(run, actions, k, i - 1, id, c);
      KeepsToNext(run, actions, i - 1, id, c);
      if IsSent(run[i], id) {
        SentLast(run, actions, k, i, id, c);
      }
    }
  }

  lemma KeepsToNext(run: seq<Client>, actions: seq<Action>, i: nat, id: nat, c: nat)
    requires IsRun(run, actions) && i < |actions| && KeepsTo(run[i], id, c)
    ensures KeepsTo(run[i + 1], id, c)
    ensures IsSent(run[i + 1], id) && !IsSent(run[i], id) ==> SentOpen(run, actions, i, id, c)
  {
    RunOk(run, actions, i);
    KeepsToStep(run[i], actions[i], id, c);
  }

  /** Only fail_pending ends a connection's standing. */
  lemma {:induction false} StandsUntilTaken(run: seq<Client>, actions: seq<Action>, k: nat, i: nat, c: nat)
    requires IsRun(run, actions) && k <= i < |run| && Standing(run[k], c)
    requires forall t :: k <= t < i ==> !actions[t].TakePending?
    ensures Standing(run[i], c)
    decreases i
  {
    if k < i {
      StandsUntilTaken(run, actions, k, i - 1, c);
      assert run[i - 1 + 1] == Apply(run[i - 1], actions[i - 1]);
    }
  }

  /** Inserted past fail_pending, sent before the channel closed, and untouched since. */
  predicate SlippedThrough(run: seq<Client>, actions: seq<Action>, k: nat, m: nat, i: nat, id: nat, c: nat) {
    && k < m < i < |run|
    && HeldSince(actions, k, i, id) && !Standing(run[k], c)
    && SentOpen(run, actions, m, id, c)
  }

  /**
    Exactly which sent requests a teardown leaves behind: those whose entry came after fail_pending
    had taken the map, whose message was sent before the channel closed, and whose entry no
    response, timeout or later fail_pending has taken since.
   */
  lemma LeftBehindExactlyWhen(run: seq<Client>, actions: seq<Action>, i: nat, id: nat, c: nat)
    requires IsRun(run, actions) && i < |run|
    requires id in run[i].phase && run[i].phase[id] == Sent(c) && !Standing(run[i], c)
    ensures id in run[i].pending <==> exists k: nat, m: nat :: SlippedThrough(run, actions, k, m, i, id, c)
  {
    PendingIsHeld(run, actions, i, id);
    if id in run[i].pending {
      var k: nat :| HeldSince(actions, k, i, id);
      assert Enabled(run[k], Insert(id));
      SentAfterInsert(run, actions, k, i, id, run[k].phase[id].conn);
      assert IsSent(run[i], id) && SentBetween(run, actions, k, i, id, c);
      var m: nat :| k < m < i && SentOpen(run, actions, m, id, c);
      if Standing(run[k], c) {
        StandsUntilTaken(run, actions, k, i, c);
      }
      assert SlippedThrough(run, actions, k, m, i, id, c);
    }
  }

  /** The request has been sent or has ended. */
  predicate PastSend(w: Client, id: nat) {
    id in w.phase && !w.phase[id].Numbered? && !w.phase[id].HasWriter? && !w.phase[id].Inserted?
  }

  /** It waits for no response: its answer is in its channel or is being given. */
  predicate TakenUp(w: Client, id: nat) {
    PastSend(w, id) && id !in w.pending &&
    (w.phase[id].Sent? ==> id in w.slot || (id in w.draining && w.life.Draining?))
  }

  lemma PastSendStep(w: Client, a: Action, id: nat)
    requires Correlated(w) && Enabled(w, a) && PastSend(w, id)
    ensures PastSend(Apply(w, a), id)
    ensures TakenUp(w, id) ==> TakenUp(Apply(w, a), id)
  {
  }

  lemma TakePendingTakesUp(w: Client, id: nat)
    requires Correlated(w) && Answerable(w) && Enabled(w, TakePending) && PastSend(w, id)
    ensures TakenUp(Apply(w, TakePending), id)
  {
  }

  lemma {:induction false} StaysPastSend(run: seq<Client>, actions: seq<Action>, i: nat, j: nat, id: nat)
    requires IsRun(run, actions) && i <= j < |run| && PastSend(run[i], id)
    ensures PastSend(run[j], id)
    ensures TakenUp(run[i], id) ==> TakenUp(run[j], id)
    decreases j
  {
    if i < j {
      StaysPastSend(run, actions, i, j - 1, id);
      RunOk(run, actions, j - 1);
      PastSendStep(run[j - 1], actions[j - 1], id);
      assert run[j - 1 + 1] == Apply(run[j - 1], actions[j - 1]);
    }
  }

  /**
    The bound on that wait, however late channels close: every attempt to connect ends in
    fail_pending, and a request sent before one is not pending after it. If it has not ended
    otherwise its answer is there, or is being given before the client leaves fail_pending.
   */
  lemma AnsweredByNextTeardown(run: seq<Client>, actions: seq<Action>, i: nat, j: nat, n: nat, id: nat)
    requires IsRun(run, actions) && i <= j < n < |run| && actions[j] == TakePending
    requires id in run[i].phase && run[i].phase[id].Sent?
    ensures id in run[n].phase && id !in run[n].pending
    ensures run[n].phase[id].Sent? ==> id in run[n].slot || (id in run[n].draining && run[n].life.Draining?)
  {
    StaysPastSend(run, actions, i, j, id);
    RunOk(run, actions, j);
    assert run[j + 1] == Apply(run[j], TakePending);
    TakePendingTakesUp(run[j], id);
    StaysPastSend(run, actions, j + 1, n, id);
  }

  lemma Continue(run: seq<Client>, actions: seq<Action>, a: Action) returns (run': seq<Client>, actions': seq<Action>)
    requires IsRun(run, actions) && Enabled(run[|run| - 1], a)
    ensures IsRun(run', actions') && run' == run + [Apply(run[|run| - 1], a)] && actions' == actions + [a]
  {
    run', actions' := run + [Apply(run[|run| - 1], a)], actions + [a];
    forall i | 0 <= i < |actions'| ensures Enabled(run'[i], actions'[i]) && run'[i + 1] == Apply(run'[i], actions'[i]) {
      if i < |actions| {
        assert run'[i] == run[i] && run'[i + 1] == run[i + 1];
      }
    }
  }

  /** A request clones the writer just before its connection is torn down. */
  lemma WriterOutlivesTeardown() returns (run: seq<Client>, actions: seq<Action>)
    ensures IsRun(run, actions)
    ensures run[|run| - 1] == Client(1, map[1 := HasWriter(0)], {}, map[], {}, None, 1, {}, Down, {})
  {
    run, actions := [Client(0, map[], {}, map[], {}, None, 0, {}, Down, {})], [];
    var script := [Begin, Open, InstallWriter, CloneWriter(1), Drop, ClearWriter, TakePending, Settle];
    var w1 := Client(1, map[1 := Numbered], {}, map[], {}, None, 0, {}, Down, {});
    var w3 := w1.(life := Up(0), conns := 1, writer := Some(0));
    var w4 := w3.(phase := map[1 := HasWriter(0)]);
    var states := [w1, w1.(life := Up(0), conns := 1), w3, w4, w4.(life := Dropped(0)),
                   w4.(life := Cleared(0), writer := None), w4.(life := Draining(0), writer := None),
                   w4.(life := Down, writer := None)];
    for i := 0 to 8
      invariant IsRun(run, actions)
      invariant run[|run| - 1] == if i == 0 then Client(0, map[], {}, map[], {}, None, 0, {}, Down, {}) else states[i - 1]
    {
      run, actions := Continue(run, actions, script[i]);
    }
  }

  /** It inserts and sends after fail_pending; only then does the channel close. */
  lemma LateCloseLeavesRequest() returns (run: seq<Client>, actions: seq<Action>)
    ensures IsRun(run, actions)
    ensures run[|run| - 1] == Client(1, map[1 := Sent(0)], {1}, map[], {}, None, 1, {0}, Down, {})
  {
    run, actions := WriterOutlivesTeardown();
    run, actions := Continue(run, actions, Insert(1));
    run, actions := Continue(run, actions, Send(1));
    run, actions := Continue(run, actions, CloseChannel(0));
  }

  /**
    If the channel outlives fail_pending, a request sent on it is left behind, disconnected; it is
    answered once the next attempt to connect has failed.
   */
  lemma LateCloseDelaysRequest() returns (run: seq<Client>, actions: seq<Action>, i: nat)
    ensures IsRun(run, actions) && i < |run|
    ensures run[i] == Client(1, map[1 := Sent(0)], {1}, map[], {}, None, 1, {0}, Down, {})
    ensures actions[i..] == [Open, Drop, ClearWriter, TakePending, FailOne(1), Receive(1)]
    ensures run[|run| - 1].phase == map[1 := Done(Disconnected)]
  {
    run, actions := LateCloseLeavesRequest();
    i := |actions|;
    var script := [Open, Drop, ClearWriter, TakePending, FailOne(1), Receive(1)];
    var w := Client(1, map[1 := Sent(0)], {1}, map[], {}, None, 2, {0}, Up(1), {});
    var w4 := w.(life := Draining(1), pending := {}, draining := {1});
    var w5 := w4.(draining := {}, slot := map[1 := Disconnected]);
    var states := [w, w.(life := Dropped(1)), w.(life := Cleared(1)), w4, w5,
                   w5.(phase := map[1 := Done(Disconnected)])];
    ghost var left := run[i];
    for k := 0 to 6
      invariant IsRun(run, actions) && |actions| == i + k && actions[i..] == script[..k]
      invariant run[i] == left && run[|run| - 1] == if k == 0 then left else states[k - 1]
    {
      run, actions := Continue(run, actions, script[k]);
      assert script[..k + 1] == script[..k] + [script[k]];
    }
  }

  /** A request that is answered: connected, sent, routed back, received. */
  lemma AnsweredRun(result: nat) returns (run: seq<Client>, actions: seq<Action>)
    ensures IsRun(run, actions) && run[|run| - 1].phase == map[1 := Done(Response(result))]
    ensures actions == [Begin, Open, InstallWriter, CloneWriter(1), Insert(1), Send(1), Route(1, result), Receive(1)]
  {
    run, actions := [Client(0, map[], {}, map[], {}, None, 0, {}, Down, {})], [];
    var script := [Begin, Open, InstallWriter, CloneWriter(1), Insert(1), Send(1), Route(1, result), Receive(1)];
    var w := Client(1, map[1 := HasWriter(0)], {}, map[], {}, Some(0), 1, {}, Up(0), {});
    var w7 := w.(phase := map[1 := Sent(0)], slot := map[1 := Response(result)], routed := {(1, result)});
    var states := [w.(phase := map[1 := Numbered], writer := None, conns := 0, life := Down),
                   w.(phase := map[1 := Numbered], writer := None), w.(phase := map[1 := Numbered]), w,
                   w.(phase := map[1 := Inserted(0)], pending := {1}), w.(phase := map[1 := Sent(0)], pending := {1}),
                   w7, w7.(phase := map[1 := Done(Response(result))])];
    ghost var start := run[0];
    for k := 0 to 8
      invariant IsRun(run, actions) && |actions| == k && actions == script[..k]
      invariant run[|run| - 1] == if k == 0 then start else states[k - 1]
    {
      run, actions := Continue(run, actions, script[k]);
      assert script[..k + 1] == script[..k] + [script[k]];
    }
  }
}
