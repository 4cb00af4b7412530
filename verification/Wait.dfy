/**
  The long poll (control.rs, events_wait): subscribe, check the record, then wait for events and
  re-read. The registry, the publishers and the clock move between any two of its steps.
 */
module EventsWait {
  import opened Common
  import opened SubscriberQueues

  /** `latest` is the status of the last record read. */
  datatype Phase =
    | Subscribing
    | FirstRead
    | Checking(latest: nat)
    | AtDeadline(latest: nat)
    | Receiving(latest: nat)
    | Rereading(latest: nat)
    | Answered(status: nat, timedOut: bool)
    | NotFound

  datatype World = World(
    registry: Option<nat>, q: QueueState, phase: Phase, now: nat, deadline: nat,
    settled: bool,       // from here on every registry read satisfies a target
    readSettled: bool,   // the waiter has read the registry since
    handed: bool,        // an admitted event was handed to the queue since
    inTime: bool)        // ... while the waiter was, or before it was again, in recv

  datatype Action =
    | Tick
    | SetRecord(record: Option<nat>)
    | Settle
    | Hand(event: Event)
    | Subscribe
    | ReadFirst
    | Check
    | CheckDeadline
    | RecvEvent
    | RecvNothing
    | Reread

  predicate Enabled(targets: set<nat>, w: World, a: Action) {
    match a
    case Tick => true
    case SetRecord(r) => w.settled ==> r.Some? && r.value in targets
    case Settle => w.registry.Some? && w.registry.value in targets
    case Hand(_) => !w.phase.Subscribing? && !w.phase.Answered? && !w.phase.NotFound?
    case Subscribe => w.phase.Subscribing?
    case ReadFirst => w.phase.FirstRead?
    case Check => w.phase.Checking?
    case CheckDeadline => w.phase.AtDeadline?
    case RecvEvent => w.phase.Receiving? && w.q.queue != []
    case RecvNothing => w.phase.Receiving? && w.q.queue == []
    case Reread => w.phase.Rereading?
  }

  function Apply(targets: set<nat>, w: World, a: Action): World
    requires Enabled(targets, w, a)
  {
    match a
    case Tick => w.(now := w.now + 1)
    case SetRecord(r) => w.(registry := r)
    case Settle => w.(settled := true)
    case Hand(e) =>
      var counts := w.settled && Accepts(w.q, e);
      w.(q := Pushed(w.q, e), handed := w.handed || counts, inTime := w.inTime || (counts && w.phase.Receiving?))
    case Subscribe => w.(phase := FirstRead)
    case ReadFirst =>
      if w.registry.None? then w.(phase := NotFound)
      else w.(phase := Checking(w.registry.value), readSettled := w.settled)
    case Check =>
      var latest := w.phase.latest;
      w.(phase := if latest in targets then Answered(latest, false) else AtDeadline(latest))
    case CheckDeadline =>
      if w.now > w.deadline then w.(phase := Answered(w.phase.latest, true))
      else w.(phase := Receiving(w.phase.latest), inTime := w.inTime || w.handed)
    case RecvEvent => w.(q := Popped(w.q), phase := Rereading(w.phase.latest))
    case RecvNothing => w.(phase := Checking(w.phase.latest))
    case Reread =>
      w.(phase := Checking(if w.registry.Some? then w.registry.value else w.phase.latest), readSettled := w.settled)
  }

  function Start(registry: Option<nat>, filter: EventFilter, capacity: nat, deadline: nat): World {
    World(registry, Empty(filter, capacity), Subscribing, 0, deadline, false, false, false, false)
  }

  function Exec(targets: set<nat>, start: World, actions: seq<Action>): World {
    if actions == [] then start
    else
      var w := Exec(targets, start, actions[..|actions| - 1]);
      var a := actions[|actions| - 1];
      if Enabled(targets, w, a) then Apply(targets, w, a) else w
  }

  ghost predicate Inv(targets: set<nat>, w: World) {
    && (w.settled ==> w.registry.Some? && w.registry.value in targets)
    && (w.readSettled || w.handed || w.inTime ==> w.settled)
    && (w.phase.Answered? && !w.phase.timedOut ==> w.phase.status in targets)
    && (w.phase.Answered? && w.phase.timedOut ==> w.now > w.deadline)
    // A read of the settled registry is answered at once.
    && (w.readSettled ==>
          (w.phase.Checking? && w.phase.latest in targets) || (w.phase.Answered? && !w.phase.timedOut))
    // Until then, an event handed over is still queued or has just been received.
    && (w.handed && !w.readSettled && !w.phase.Answered? && !w.phase.NotFound? ==>
          w.phase.Rereading? || w.q.queue != [])
    && (w.inTime && !w.readSettled ==> w.handed && (w.phase.Receiving? || w.phase.Rereading?))
  }

  lemma InvStep(targets: set<nat>, w: World, a: Action)
    requires Inv(targets, w) && Enabled(targets, w, a)
    ensures Inv(targets, Apply(targets, w, a))
  {
    if a.Hand? && Accepts(w.q, a.event) {
      assert Pushed(w.q, a.event).queue != [];
    }
  }

  lemma {:induction false} ExecInv(targets: set<nat>, start: World, actions: seq<Action>)
    requires Inv(targets, start)
    ensures Inv(targets, Exec(targets, start, actions))
  {
    if actions != [] {
      ExecInv(targets, start, actions[..|actions| - 1]);
      var w := Exec(targets, start, actions[..|actions| - 1]);
      if Enabled(targets, w, actions[|actions| - 1]) {
        InvStep(targets, w, actions[|actions| - 1]);
      }
    }
  }

  /**
    Over every run: an answer that is not a timeout satisfies a target, and a timeout comes after
    the deadline. Once every read satisfies a target, a wait that has read the registry since, or
    was in recv at or after an event was handed over, does not time out, even if the queue
    overflowed.
   */
  lemma NoLostWakeup(targets: set<nat>, registry: Option<nat>, filter: EventFilter, capacity: nat, deadline: nat,
                     actions: seq<Action>)
    ensures var w := Exec(targets, Start(registry, filter, capacity, deadline), actions);
            w.phase.Answered? ==>
              && (!w.phase.timedOut ==> w.phase.status in targets)
              && (w.phase.timedOut ==> w.now > w.deadline && !w.readSettled && !w.inTime)
  {
    ExecInv(targets, Start(registry, filter, capacity, deadline), actions);
  }

  /** Such a wait never blocks: three of its own steps answer it, whatever the clock says. */
  lemma HandedEventAnswersInThreeSteps(targets: set<nat>, registry: Option<nat>, filter: EventFilter, capacity: nat,
                                       deadline: nat, actions: seq<Action>)
    ensures var w := Exec(targets, Start(registry, filter, capacity, deadline), actions);
            w.phase.Receiving? && w.handed ==>
              && Enabled(targets, w, RecvEvent)
              && var w1 := Apply(targets, w, RecvEvent);
                 var w2 := Apply(targets, w1, Reread);
                 w.registry.Some? && Apply(targets, w2, Check).phase == Answered(w.registry.value, false)
  {
    ExecInv(targets, Start(registry, filter, capacity, deadline), actions);
  }

  lemma ExecSnoc(targets: set<nat>, start: World, actions: seq<Action>, a: Action)
    ensures var w := Exec(targets, start, actions);
            Exec(targets, start, actions + [a]) == if Enabled(targets, w, a) then Apply(targets, w, a) else w
  {
    assert (actions + [a])[..|actions|] == actions;
  }

  /** The record the waiter read last: the steps that read are the first read and the re-reads. */
  function LastRead(targets: set<nat>, start: World, actions: seq<Action>): Option<nat> {
    if actions == [] then None
    else
      var front, a := actions[..|actions| - 1], actions[|actions| - 1];
      var w := Exec(targets, start, front);
      if (a.ReadFirst? || a.Reread?) && Enabled(targets, w, a) && w.registry.Some? then w.registry
      else LastRead(targets, start, front)
  }

  ghost predicate KnowsLastRead(w: World, read: Option<nat>) {
    && (w.phase.Subscribing? || w.phase.FirstRead? || w.phase.NotFound? ==> read == None)
    && (w.phase.Checking? || w.phase.AtDeadline? || w.phase.Receiving? || w.phase.Rereading? ==> read == Some(w.phase.latest))
    && (w.phase.Answered? ==> read == Some(w.phase.status))
  }

  /** Whether it answers in time or not, the wait answers the record it read last; with no record it finds nothing. */
  lemma {:induction false} AnswersLastRead(targets: set<nat>, registry: Option<nat>, filter: EventFilter, capacity: nat,
                                           deadline: nat, actions: seq<Action>)
    ensures var start := Start(registry, filter, capacity, deadline);
            KnowsLastRead(Exec(targets, start, actions), LastRead(targets, start, actions))
  {
    if actions != [] {
      AnswersLastRead(targets, registry, filter, capacity, deadline, actions[..|actions| - 1]);
    }
  }

  /** The waiter's own next step. */
  function OwnStep(w: World): Action {
    match w.phase
    case Subscribing => Subscribe
    case FirstRead => ReadFirst
    case Checking(_) => Check
    case AtDeadline(_) => CheckDeadline
    case Receiving(_) => if w.q.queue == [] then RecvNothing else RecvEvent
    case _ => Reread
  }

  predicate IsOver(w: World) {
    w.phase.Answered? || w.phase.NotFound?
  }

  /** At most `n` steps of its own end the wait. */
  predicate EndsIn(targets: set<nat>, w: World, n: nat)
    decreases n
  {
    IsOver(w) || (n > 0 && EndsIn(targets, Apply(targets, w, OwnStep(w)), n - 1))
  }

  lemma {:induction false} EndsInMore(targets: set<nat>, w: World, n: nat, m: nat)
    requires EndsIn(targets, w, n) && n <= m
    ensures EndsIn(targets, w, m)
    decreases n
  {
    if !IsOver(w) {
      EndsInMore(targets, Apply(targets, w, OwnStep(w)), n - 1, m - 1);
    }
  }

  lemma CheckingEnds(targets: set<nat>, w: World)
    requires w.now > w.deadline && w.phase.Checking?
    ensures EndsIn(targets, w, 2)
  {
    var w1 := Apply(targets, w, Check);
    assert w1.phase.AtDeadline? ==> IsOver(Apply(targets, w1, CheckDeadline));
    assert EndsIn(targets, w1, 1);
  }

  lemma ReadingEnds(targets: set<nat>, w: World)
    requires w.now > w.deadline && (w.phase.FirstRead? || w.phase.Rereading?)
    ensures EndsIn(targets, w, 3)
  {
    var w1 := Apply(targets, w, OwnStep(w));
    if w1.phase.Checking? {
      CheckingEnds(targets, w1);
    }
    assert EndsIn(targets, w1, 2);
  }

  lemma ReceivingEnds(targets: set<nat>, w: World)
    requires w.now > w.deadline && w.phase.Receiving?
    ensures EndsIn(targets, w, 4)
  {
    var w1 := Apply(targets, w, OwnStep(w));
    if w1.phase.Rereading? {
      ReadingEnds(targets, w1);
    } else {
      CheckingEnds(targets, w1);
      EndsInMore(targets, w1, 2, 3);
    }
    assert EndsIn(targets, w1, 3);
  }

  /** Past the deadline the wait ends within four steps of its own, wherever it is. */
  lemma PastDeadlineEnds(targets: set<nat>, w: World)
    requires w.now > w.deadline
    ensures EndsIn(targets, w, 4)
  {
    match w.phase
    case Subscribing =>
      ReadingEnds(targets, Apply(targets, w, Subscribe));
    case FirstRead =>
      ReadingEnds(targets, w);
      EndsInMore(targets, w, 3, 4);
    case Rereading(_) =>
      ReadingEnds(targets, w);
      EndsInMore(targets, w, 3, 4);
    case Checking(_) =>
      CheckingEnds(targets, w);
      EndsInMore(targets, w, 2, 4);
    case AtDeadline(_) =>
      assert IsOver(Apply(targets, w, CheckDeadline));
    case Receiving(_) => ReceivingEnds(targets, w);
    case _ =>
  }

  /** An event waits in the queue, unread, and the waiter is about to check its deadline. */
  ghost predicate Overlooked(w: World) {
    w.phase.AtDeadline? && w.handed && !w.readSettled
  }

  /** After a deadline check: back in recv in time, or timed out. */
  ghost predicate Decided(w: World, late: bool) {
    if late then w.phase.Answered? && w.phase.timedOut else w.inTime
  }

  /** Before its deadline check nothing else moves the waiter on. */
  lemma {:induction false} OverlookedUntilChecked(targets: set<nat>, start: World, actions: seq<Action>, before: seq<Action>)
    requires Overlooked(Exec(targets, start, actions)) && CheckDeadline !in before
    ensures Overlooked(Exec(targets, start, actions + before))
  {
    if before == [] {
      assert actions + before == actions;
    } else {
      var front, a := before[..|before| - 1], before[|before| - 1];
      OverlookedUntilChecked(targets, start, actions, front);
      assert actions + before == (actions + front) + [a];
      ExecSnoc(targets, start, actions + front, a);
    }
  }

  lemma {:induction false} StaysDecided(targets: set<nat>, start: World, actions: seq<Action>, rest: seq<Action>, late: bool)
    requires Decided(Exec(targets, start, actions), late)
    ensures Decided(Exec(targets, start, actions + rest), late)
  {
    if rest == [] {
      assert actions + rest == actions;
    } else {
      var front, a := rest[..|rest| - 1], rest[|rest| - 1];
      StaysDecided(targets, start, actions, front, late);
      assert actions + rest == (actions + front) + [a];
      ExecSnoc(targets, start, actions + front, a);
    }
  }

  /**
    The gap that remains, exactly: an event handed over since the last read, while the waiter is
    about to check its deadline, ends in a timeout if and only if that check comes after the
    deadline; if it comes in time, the answer satisfies a target.
   */
  lemma TimesOutExactlyWhenCheckedLate(targets: set<nat>, registry: Option<nat>, filter: EventFilter, capacity: nat,
                                       deadline: nat, actions: seq<Action>, before: seq<Action>, rest: seq<Action>)
    requires Overlooked(Exec(targets, Start(registry, filter, capacity, deadline), actions))
    requires CheckDeadline !in before
    ensures var start := Start(registry, filter, capacity, deadline);
            var atCheck := Exec(targets, start, actions + before);
            var w := Exec(targets, start, actions + before + [CheckDeadline] + rest);
            w.phase.Answered? ==>
              && (w.phase.timedOut <==> atCheck.now > atCheck.deadline)
              && (w.phase.timedOut <==> !w.inTime)
              && (!w.phase.timedOut ==> w.phase.status in targets)
  {
    var start := Start(registry, filter, capacity, deadline);
    OverlookedUntilChecked(targets, start, actions, before);
    ExecInv(targets, start, actions + before);
    var atCheck := Exec(targets, start, actions + before);
    ExecSnoc(targets, start, actions + before, CheckDeadline);
    StaysDecided(targets, start, actions + before + [CheckDeadline], rest, atCheck.now > atCheck.deadline);
    ExecInv(targets, start, actions + before + [CheckDeadline] + rest);
  }

  /** The waiter has just re-read an unsettled record, with one time unit left. */
  lemma RereadTooEarly(e: Event, start: World) returns (actions: seq<Action>)
    requires start == Start(Some(0), EventFilter(None, None), 2, 0)
    ensures Exec({1}, start, actions) == start.(phase := Checking(0))
  {
    var steps := [Subscribe, ReadFirst, Check, CheckDeadline, Hand(e), RecvEvent, Reread];
    var q := start.q.(queue := [Published(e)]);
    var states := [start, start.(phase := FirstRead), start.(phase := Checking(0)), start.(phase := AtDeadline(0)),
                   start.(phase := Receiving(0)), start.(phase := Receiving(0), q := q),
                   start.(phase := Rereading(0)), start.(phase := Checking(0))];
    actions := [];
    for i := 0 to 7
      invariant Exec({1}, start, actions) == states[i]
    {
      ExecSnoc({1}, start, actions, steps[i]);
      actions := actions + [steps[i]];
    }
  }

  /** The record is settled and the event handed over before the waiter looks again. */
  lemma EventOverlooked(e: Event, start: World) returns (actions: seq<Action>)
    requires start == Start(Some(0), EventFilter(None, None), 2, 0)
    ensures Exec({1}, start, actions)
         == start.(registry := Some(1), phase := Checking(0), settled := true, handed := true,
                   q := start.q.(queue := [Published(e)]))
  {
    actions := RereadTooEarly(e, start);
    ExecSnoc({1}, start, actions, SetRecord(Some(1)));
    actions := actions + [SetRecord(Some(1))];
    ExecSnoc({1}, start, actions, Settle);
    actions := actions + [Settle];
    ExecSnoc({1}, start, actions, Hand(e));
    actions := actions + [Hand(e)];
    assert start.q.queue + [Published(e)] == [Published(e)];
  }

  /** A run into that gap: the event is handed over before the deadline and never received. */
  lemma HandedBeforeDeadlineMayTimeOut(e: Event) returns (before: seq<Action>, actions: seq<Action>)
    ensures before < actions
    ensures var start := Start(Some(0), EventFilter(None, None), 2, 0);
            var w, w' := Exec({1}, start, before), Exec({1}, start, actions);
            && w.handed && w.now <= w.deadline && w.settled
            && w'.phase == Answered(0, true) && w'.q.queue == [Published(e)]
  {
    var start := Start(Some(0), EventFilter(None, None), 2, 0);
    before := EventOverlooked(e, start);
    actions := before;
    ExecSnoc({1}, start, actions, Tick);
    actions := actions + [Tick];
    ExecSnoc({1}, start, actions, Check);
    actions := actions + [Check];
    ExecSnoc({1}, start, actions, CheckDeadline);
    actions := actions + [CheckDeadline];
  }
}
