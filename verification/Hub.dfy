/**
  Sinks and pumps (attach.rs, AttachHub): sinks come and go, one pump thread per session serves
  them, and a pump that finds no sink retires itself. Every step below holds the `sessions` lock.
 */
module AttachHubs {

  datatype Entry = Entry(sinks: set<nat>, pumpRunning: bool)

  type Sessions = map<string, Entry>

  function EntryOr(m: Sessions, session: string): Entry {
    if session in m then m[session] else Entry({}, false)
  }

  function Registered(m: Sessions, session: string, sink: nat): Sessions {
    m[session := Entry(EntryOr(m, session).sinks + {sink}, true)]
  }

  function Deregistered(m: Sessions, session: string, sink: nat): Sessions {
    if session in m then m[session := m[session].(sinks := m[session].sinks - {sink})] else m
  }

  /** A pump stops when its entry exists and holds no sink. */
  predicate Retires(m: Sessions, session: string) {
    session in m && m[session].sinks == {}
  }

  class AttachHub {
    var sessions: Sessions
    var nextSink: nat

    constructor ()
      ensures sessions == map[] && nextSink == 0
    {
      sessions, nextSink := map[], 0;
    }

    method NewSink() returns (id: nat)
      modifies this`nextSink
      ensures id == old(nextSink) && nextSink == old(nextSink) + 1
    {
      id := nextSink;
      nextSink := nextSink + 1;
    }

    /** Adds the sink; `start` tells the caller to spawn a pump. */
    method Register(session: string, sink: nat) returns (start: bool)
      modifies this`sessions
      ensures sessions == Registered(old(sessions), session, sink)
      ensures start == !EntryOr(old(sessions), session).pumpRunning
    {
      var entry := if session in sessions then sessions[session] else Entry({}, false);
      entry := entry.(sinks := entry.sinks + {sink});
      start := false;
      if !entry.pumpRunning {
        entry := entry.(pumpRunning := true);
        start := true;
      }
      sessions := sessions[session := entry];
    }

    method Deregister(session: string, sink: nat)
      modifies this`sessions
      ensures sessions == Deregistered(old(sessions), session, sink)
    {
      if session in sessions {
        var entry := sessions[session];
        sessions := sessions[session := entry.(sinks := entry.sinks - {sink})];
      }
    }

    /** The end of each pump round: leaving and forgetting the entry are one step. */
    method RetireIfIdle(session: string) returns (stop: bool)
      modifies this`sessions
      ensures stop == Retires(old(sessions), session)
      ensures sessions == if stop then old(sessions) - {session} else old(sessions)
    {
      stop := false;
      if session in sessions && sessions[session].sinks == {} {
        sessions := sessions - {session};
        stop := true;
      }
    }
  }

  // ---------------------------------------------------------------- all interleavings

  /** `pumps` are the live pump threads; `lost` the sessions whose pump never started or died. */
  datatype Hub = Hub(sessions: Sessions, pumps: map<nat, string>, nextPump: nat, lost: set<string>)

  datatype Action =
    | Register(session: string, sink: nat, spawned: bool)   // spawning a thread may fail, unnoticed
    | Deregister(session: string, sink: nat)
    | PumpRound(pump: nat)
    | PoisonedExit(pump: nat)       // the registry lock is poisoned: the pump just leaves its loop

  predicate Enabled(h: Hub, a: Action) {
    (a.PumpRound? || a.PoisonedExit?) ==> a.pump in h.pumps
  }

  function Apply(h: Hub, a: Action): Hub
    requires Enabled(h, a)
  {
    match a
    case Register(s, sink, spawned) =>
      var h' := h.(sessions := Registered(h.sessions, s, sink));
      if EntryOr(h.sessions, s).pumpRunning then h'
      else if spawned then h'.(pumps := h.pumps[h.nextPump := s], nextPump := h.nextPump + 1)
      else h'.(lost := h.lost + {s})
    case Deregister(s, sink) => h.(sessions := Deregistered(h.sessions, s, sink))
    case PumpRound(p) =>
      if Retires(h.sessions, h.pumps[p])
      then h.(sessions := h.sessions - {h.pumps[p]}, pumps := h.pumps - {p})
      else h
    case PoisonedExit(p) => h.(pumps := h.pumps - {p}, lost := h.lost + {h.pumps[p]})
  }

  function Exec(actions: seq<Action>): Hub {
    if actions == [] then Hub(map[], map[], 0, {})
    else
      var h := Exec(actions[..|actions| - 1]);
      var a := actions[|actions| - 1];
      if Enabled(h, a) then Apply(h, a) else h
  }

  function PumpsOf(h: Hub, session: string): set<nat> {
    set p | p in h.pumps && h.pumps[p] == session
  }

  /** Known sessions say their pump runs, and one does, unless it was lost; others have none. */
  ghost predicate Lifecycle(h: Hub) {
    && (forall p :: p in h.pumps ==> p < h.nextPump)
    && (forall s :: s in h.sessions ==> h.sessions[s].pumpRunning)
    && h.lost <= h.sessions.Keys
    && forall s :: |PumpsOf(h, s)| == if s in h.sessions && s !in h.lost then 1 else 0
  }

  lemma OnlyPump(h: Hub, p: nat)
    requires Lifecycle(h) && p in h.pumps
    ensures PumpsOf(h, h.pumps[p]) == {p} && h.pumps[p] in h.sessions && h.pumps[p] !in h.lost
  {
    var live := PumpsOf(h, h.pumps[p]);
    assert p in live;
    if live != {p} {
      assert |live - {p}| == |live| - 1;
      assert live - {p} == {};
    }
  }

  lemma PumpLeaves(h: Hub, p: nat, h': Hub)
    requires Lifecycle(h) && p in h.pumps && h'.pumps == h.pumps - {p}
    ensures forall s :: PumpsOf(h', s) == if s == h.pumps[p] then {} else PumpsOf(h, s)
  {
    OnlyPump(h, p);
    forall s ensures PumpsOf(h', s) == if s == h.pumps[p] then {} else PumpsOf(h, s) {
      assert PumpsOf(h', s) == PumpsOf(h, s) - {p};
    }
  }

  lemma RegisterPumps(h: Hub, a: Action, t: string)
    requires Lifecycle(h) && a.Register?
    ensures var starts := a.session !in h.sessions && a.spawned && t == a.session;
            PumpsOf(Apply(h, a), t) == if starts then {h.nextPump} else PumpsOf(h, t)
    ensures a.session !in h.sessions ==> PumpsOf(h, a.session) == {}
  {
    assert |PumpsOf(h, a.session)| == 0 ==> PumpsOf(h, a.session) == {};
  }

  lemma RegisterKeeps(h: Hub, a: Action)
    requires Lifecycle(h) && Enabled(h, a) && a.Register?
    ensures Lifecycle(Apply(h, a))
  {
    var h' := Apply(h, a);
    forall t ensures |PumpsOf(h', t)| == if t in h'.sessions && t !in h'.lost then 1 else 0 {
      RegisterPumps(h, a, t);
    }
  }

  lemma LifecycleStep(h: Hub, a: Action)
    requires Lifecycle(h) && Enabled(h, a)
    ensures Lifecycle(Apply(h, a))
  {
    var h' := Apply(h, a);
    match a
    case Register(_, _, _) => RegisterKeeps(h, a);
    case Deregister(s, sink) =>
      forall t ensures PumpsOf(h', t) == PumpsOf(h, t) {}
    case PumpRound(p) =>
      if Retires(h.sessions, h.pumps[p]) {
        OnlyPump(h, p);
        PumpLeaves(h, p, h');
      }
    case PoisonedExit(p) =>
      OnlyPump(h, p);
      PumpLeaves(h, p, h');
  }

  lemma {:induction false} ExecLifecycle(actions: seq<Action>)
    ensures Lifecycle(Exec(actions))
  {
    if actions == [] {
      forall s ensures PumpsOf(Exec([]), s) == {} {}
    } else {
      ExecLifecycle(actions[..|actions| - 1]);
      var h := Exec(actions[..|actions| - 1]);
      if Enabled(h, actions[|actions| - 1]) {
        LifecycleStep(h, actions[|actions| - 1]);
      }
    }
  }

  /**
    Over every interleaving no session has two pumps, and a session with a sink has exactly one
    if and only if its pump was not lost to a failed spawn or a poisoned lock: a retiring pump
    never strands a sink.
   */
  lemma OnePumpPerAttachedSession(actions: seq<Action>, session: string)
    ensures var h := Exec(actions);
            && |PumpsOf(h, session)| <= 1
            && (session !in h.sessions ==> PumpsOf(h, session) == {})
            && (session in h.sessions && h.sessions[session].sinks != {} ==>
                  (|PumpsOf(h, session)| == 1 <==> session !in h.lost))
  {
    ExecLifecycle(actions);
  }

  /** A failed spawn for a session without a pump, or a poisoned exit of the session's own pump. */
  ghost predicate LosesPump(h: Hub, a: Action, session: string) {
    Enabled(h, a) &&
    match a
    case Register(s, _, spawned) => s == session && !spawned && PumpsOf(h, session) == {}
    case PoisonedExit(p) => h.pumps[p] == session
    case _ => false
  }

  lemma LostStep(h: Hub, a: Action, session: string)
    requires Lifecycle(h) && Enabled(h, a)
    ensures session in Apply(h, a).lost <==> session in h.lost || LosesPump(h, a, session)
  {
    if a.Register? && a.session == session && session in h.sessions && session !in h.lost {
      assert PumpsOf(h, session) != {};
    }
  }

  /** The `i`-th action loses the session's pump. */
  ghost predicate LossAt(actions: seq<Action>, i: nat, session: string) {
    i < |actions| && LosesPump(Exec(actions[..i]), actions[i], session)
  }

  lemma LossAtPrefix(actions: seq<Action>, n: nat, i: nat, session: string)
    requires i < n <= |actions|
    ensures LossAt(actions[..n], i, session) == LossAt(actions, i, session)
  {
    assert actions[..n][..i] == actions[..i];
  }

  lemma LossAtLast(actions: seq<Action>, session: string)
    requires actions != []
    ensures session in Exec(actions).lost <==>
              session in Exec(actions[..|actions| - 1]).lost || LossAt(actions, |actions| - 1, session)
  {
    var front := actions[..|actions| - 1];
    ExecLifecycle(front);
    if Enabled(Exec(front), actions[|actions| - 1]) {
      LostStep(Exec(front), actions[|actions| - 1], session);
    }
  }

  /** Exactly the two unhandled failures, of the session itself, lose its pump. */
  lemma {:induction false} LostExactlyWhen(actions: seq<Action>, session: string)
    ensures session in Exec(actions).lost <==> exists i: nat :: LossAt(actions, i, session)
  {
    if actions != [] {
      var n := |actions| - 1;
      LostExactlyWhen(actions[..n], session);
      LossAtLast(actions, session);
      if i: nat :| LossAt(actions, i, session) && i < n {
        LossAtPrefix(actions, n, i, session);
      }
      if i: nat :| LossAt(actions[..n], i, session) {
        LossAtPrefix(actions, n, i, session);
      }
    }
  }

  /** Either failure leaves a sink without a pump. */
  lemma FailuresStrandSinks(session: string, sink: nat)
    ensures var h := Exec([Register(session, sink, false)]);
            session in h.sessions && sink in h.sessions[session].sinks && PumpsOf(h, session) == {}
    ensures var h := Exec([Register(session, sink, true), PoisonedExit(0)]);
            session in h.sessions && sink in h.sessions[session].sinks && PumpsOf(h, session) == {}
  {
    assert Exec([]) == Hub(map[], map[], 0, {});
    assert [Register(session, sink, false)][..0] == [];
    assert [Register(session, sink, true)][..0] == [];
    assert [Register(session, sink, true), PoisonedExit(0)][..1] == [Register(session, sink, true)];
    assert Exec([Register(session, sink, true)]).pumps == map[0 := session];
  }

  // ---------------------------------------------------------------- sinks

  function SinksOf(h: Hub, session: string): set<nat> {
    if session in h.sessions then h.sessions[session].sinks else {}
  }

  /** Sink `k` was registered with the session and not deregistered since. */
  ghost predicate Joined(actions: seq<Action>, session: string, k: nat) {
    exists i: nat :: JoinedAt(actions, i, session, k)
  }

  predicate JoinedAt(actions: seq<Action>, i: nat, session: string, k: nat) {
    && i < |actions| && actions[i].Register? && actions[i].session == session && actions[i].sink == k
    && Deregister(session, k) !in actions[i..]
  }

  lemma SinksStep(h: Hub, a: Action, session: string, k: nat)
    requires Enabled(h, a)
    ensures k in SinksOf(Apply(h, a), session) <==>
              (k in SinksOf(h, session) && a != Deregister(session, k))
              || (a.Register? && a.session == session && a.sink == k)
  {
  }

  lemma JoinedLast(actions: seq<Action>, session: string, k: nat)
    requires actions != []
    ensures var front, a := actions[..|actions| - 1], actions[|actions| - 1];
            Joined(actions, session, k) <==>
              (Joined(front, session, k) && a != Deregister(session, k))
              || (a.Register? && a.session == session && a.sink == k)
  {
    var front, a := actions[..|actions| - 1], actions[|actions| - 1];
    assert forall i :: 0 <= i < |front| ==> actions[i..] == front[i..] + [a];
    if a.Register? && a.session == session && a.sink == k {
      assert actions[|front|..] == [a];
      assert JoinedAt(actions, |front|, session, k);
    }
    if i: nat :| JoinedAt(front, i, session, k) && a != Deregister(session, k) {
      assert JoinedAt(actions, i, session, k);
    }
    if i: nat :| JoinedAt(actions, i, session, k) && i < |front| {
      assert JoinedAt(front, i, session, k);
      assert a in actions[i..];
    }
  }

  /** Over every interleaving a session has exactly the sinks that joined it and have not left. */
  lemma {:induction false} SinksAreThoseJoined(actions: seq<Action>, session: string, k: nat)
    ensures k in SinksOf(Exec(actions), session) <==> Joined(actions, session, k)
  {
    if actions != [] {
      var front, a := actions[..|actions| - 1], actions[|actions| - 1];
      SinksAreThoseJoined(front, session, k);
      JoinedLast(actions, session, k);
      if Enabled(Exec(front), a) {
        SinksStep(Exec(front), a, session, k);
      }
    }
  }

  /** A pump ends its round by retiring, and its session is forgotten, exactly when no sink is left of it. */
  lemma PumpRetiresExactlyWhenIdle(actions: seq<Action>, p: nat)
    requires p in Exec(actions).pumps
    ensures var h, h' := Exec(actions), Exec(actions + [PumpRound(p)]);
            var session := h.pumps[p];
            && (p !in h'.pumps <==> forall k :: !Joined(actions, session, k))
            && (session !in h'.sessions <==> p !in h'.pumps)
  {
    var h := Exec(actions);
    var session := h.pumps[p];
    ExecLifecycle(actions);
    OnlyPump(h, p);
    assert (actions + [PumpRound(p)])[..|actions|] == actions;
    forall k ensures k in h.sessions[session].sinks <==> Joined(actions, session, k) {
      SinksAreThoseJoined(actions, session, k);
    }
  }

  /** A lost pump is never replaced: `pump_running` stays set and no later sink is served. */
  lemma {:induction false} LostStaysLost(actions: seq<Action>, later: seq<Action>, session: string)
    requires session in Exec(actions).lost
    ensures session in Exec(actions + later).lost && PumpsOf(Exec(actions + later), session) == {}
  {
    ExecLifecycle(actions + later);
    if later == [] {
      assert actions + later == actions;
    } else {
      var front := later[..|later| - 1];
      LostStaysLost(actions, front, session);
      assert (actions + later)[..|actions + later| - 1] == actions + front;
      var h := Exec(actions + front);
      ExecLifecycle(actions + front);
      var a := later[|later| - 1];
      if a.PumpRound? && a.pump in h.pumps {
        OnlyPump(h, a.pump);
      }
    }
  }
}
