/**
  What the sink that started a pump sees (attach.rs, AttachHub.serve and pump): a full snapshot, then the diffs taken
  from the pump's signature, which advance it. The session may draw, or be replaced, between any two steps.
 */
module PumpViews {
  import opened Common

  datatype Screen = Screen(cols: nat, cursorCol: nat, cursorRow: nat, cursorVisible: bool, rows: seq<seq<nat>>)

  /** (alternate screen, mouse reporting) */
  datatype Modes = Modes(altScreen: bool, mouseReporting: bool)

  /** A full snapshot replaces the grid; a patch replaces the listed rows. */
  datatype Update =
    | Full(screen: Screen)
    | Patch(cols: nat, cursorCol: nat, cursorRow: nat, cursorVisible: bool, changed: map<nat, seq<nat>>)

  datatype Frame = GridFrame(update: Update) | ModesFrame(modes: Modes)

  function Diff(signature: Option<Screen>, now: Screen): Option<Update> {
    if signature == Some(now) then None
    else if signature.None? || signature.value.cols != now.cols || |signature.value.rows| != |now.rows|
    then Some(Full(now))
    else Some(Patch(now.cols, now.cursorCol, now.cursorRow, now.cursorVisible,
                    map i: nat | i < |now.rows| && now.rows[i] != signature.value.rows[i] :: now.rows[i]))
  }

  function Show(view: Screen, u: Update): Screen {
    match u
    case Full(screen) => screen
    case Patch(cols, col, row, visible, changed) =>
      Screen(cols, col, row, visible,
             seq(|view.rows|, i requires 0 <= i < |view.rows| => if i in changed then changed[i] else view.rows[i]))
  }

  /** Showing the diff on what the signature stands for gives the screen it was taken from. */
  lemma ShowDiff(before: Screen, now: Screen, signature: Option<Screen>)
    requires signature.Some? ==> signature.value == before
    ensures (match Diff(signature, now) case Some(u) => Show(before, u) case None => before) == now
  {
    match Diff(signature, now)
    case None =>
    case Some(u) => assert Show(before, u).rows == now.rows;
  }

  /** A diff lists the rows that changed and no others; there is none when nothing changed. */
  lemma DiffIsLeast(before: Screen, now: Screen)
    ensures Diff(Some(before), now) == None <==> before == now
    ensures Diff(Some(before), now).Some? && Diff(Some(before), now).value.Patch? ==>
              var changed := Diff(Some(before), now).value.changed;
              |before.rows| == |now.rows| && forall i: nat :: i in changed <==> i < |now.rows| && before.rows[i] != now.rows[i]
    ensures Diff(Some(before), now).Some? && Diff(Some(before), now).value.Full? ==>
              before.cols != now.cols || |before.rows| != |now.rows|
  {
  }

  datatype Phase = Idle | GridSeen | Writing

  datatype World = World(
    screen: Screen, modes: Modes, source: nat,                       // the session
    signature: Option<Screen>, lastModes: Option<Modes>, wake: nat,  // the pump
    phase: Phase, outbox: seq<Frame>,
    view: Screen, viewModes: Modes, alive: bool,                     // the sink
    observed: Screen, observedModes: Modes,                          // the pump's last observation
    noticed: bool, unencodable: bool)   // some replacement noticed; some update did not encode

  datatype Action =
    | Draw(screen: Screen, modes: Modes)
    | Restart(screen: Screen, modes: Modes)
    | NoticeRestart
    | ObserveGrid(encodes: bool)
    | ObserveModes
    | WriteFrame
    | SinkFails
    | RoundEnds

  /** The seed is written to the sink and handed to the pump it starts. */
  function Start(screen: Screen, modes: Modes): World {
    World(screen, modes, 0, Some(screen), Some(modes), 0, Idle, [], screen, modes, true, screen, modes, false, false)
  }

  predicate Enabled(w: World, a: Action) {
    match a
    case Draw(_, _) => true
    case Restart(_, _) => true
    case NoticeRestart => w.phase == Idle && w.wake != w.source
    case ObserveGrid(_) => w.phase == Idle
    case ObserveModes => w.phase == GridSeen
    case WriteFrame => w.phase == Writing && w.alive && w.outbox != []
    case SinkFails => true
    case RoundEnds => w.phase == Writing && (w.outbox == [] || !w.alive)
  }

  function Apply(w: World, a: Action): World
    requires Enabled(w, a)
  {
    match a
    case Draw(screen, modes) => w.(screen := screen, modes := modes)
    case Restart(screen, modes) => w.(screen := screen, modes := modes, source := w.source + 1)
    case NoticeRestart => w.(wake := w.source, signature := None, lastModes := None, noticed := true)
    case ObserveGrid(encodes) =>
      var u := Diff(w.signature, w.screen);
      w.(signature := Some(w.screen), observed := w.screen, phase := GridSeen,
         outbox := if u.Some? && encodes then [GridFrame(u.value)] else [],
         unencodable := w.unencodable || (u.Some? && !encodes))
    case ObserveModes =>
      w.(lastModes := Some(w.modes), observedModes := w.modes, phase := Writing,
         outbox := w.outbox +
           if w.lastModes.Some? && w.lastModes.value != w.modes then [ModesFrame(w.modes)] else [])
    case WriteFrame =>
      var w' := w.(outbox := w.outbox[1..]);
      (match w.outbox[0]
       case GridFrame(u) => w'.(view := Show(w.view, u))
       case ModesFrame(m) => w'.(viewModes := m))
    case SinkFails => w.(alive := false)
    case RoundEnds => w.(phase := Idle, outbox := [])
  }

  function Exec(start: World, actions: seq<Action>): World {
    if actions == [] then start
    else
      var w := Exec(start, actions[..|actions| - 1]);
      var a := actions[|actions| - 1];
      if Enabled(w, a) then Apply(w, a) else w
  }

  /** What the sink will show once the outbox has been written. */
  function Seen(view: Screen, outbox: seq<Frame>): Screen
    decreases |outbox|
  {
    if outbox == [] then view
    else Seen(if outbox[0].GridFrame? then Show(view, outbox[0].update) else view, outbox[1..])
  }

  function SeenModes(modes: Modes, outbox: seq<Frame>): Modes
    decreases |outbox|
  {
    if outbox == [] then modes
    else SeenModes(if outbox[0].ModesFrame? then outbox[0].modes else modes, outbox[1..])
  }

  lemma {:induction false} SeenModesFrame(view: Screen, modes: Modes, outbox: seq<Frame>, m: Modes)
    ensures Seen(view, outbox + [ModesFrame(m)]) == Seen(view, outbox)
    ensures SeenModes(modes, outbox + [ModesFrame(m)]) == m
    decreases |outbox|
  {
    var longer := outbox + [ModesFrame(m)];
    if outbox == [] {
      assert longer[1..] == [];
    } else {
      assert longer[1..] == outbox[1..] + [ModesFrame(m)];
      SeenModesFrame(if outbox[0].GridFrame? then Show(view, outbox[0].update) else view,
                     if outbox[0].ModesFrame? then outbox[0].modes else modes, outbox[1..], m);
    }
  }

  ghost predicate Tracks(w: World) {
    && (w.phase == Idle ==> w.outbox == [])
    && (w.phase == GridSeen ==> |w.outbox| <= 1 && (w.outbox != [] ==> w.outbox[0].GridFrame?))
    && (w.signature.Some? ==> w.signature.value == w.observed)
    && (w.phase != Idle ==> w.signature.Some?)
    && (w.lastModes.Some? ==> w.lastModes.value == w.observedModes)
    && (w.alive && !w.unencodable ==> Seen(w.view, w.outbox) == w.observed)
    && (w.alive && !w.noticed ==>
          w.lastModes == Some(w.observedModes) && SeenModes(w.viewModes, w.outbox) == w.observedModes)
  }

  lemma TracksStep(w: World, a: Action)
    requires Tracks(w) && Enabled(w, a)
    ensures Tracks(Apply(w, a))
  {
    match a
    case ObserveGrid(encodes) =>
      ShowDiff(w.observed, w.screen, w.signature);
    case ObserveModes =>
      SeenModesFrame(w.view, w.viewModes, w.outbox, w.modes);
    case _ =>
  }

  lemma {:induction false} ExecTracks(screen: Screen, modes: Modes, actions: seq<Action>)
    ensures Tracks(Exec(Start(screen, modes), actions))
  {
    if actions != [] {
      ExecTracks(screen, modes, actions[..|actions| - 1]);
      var w := Exec(Start(screen, modes), actions[..|actions| - 1]);
      if Enabled(w, actions[|actions| - 1]) {
        TracksStep(w, actions[|actions| - 1]);
      }
    }
  }

  /**
    Over every run, while its writes succeed, the starting sink shows exactly the screen of the
    pump's last completed round: snapshot plus diffs, across restarts of the session. Its modes
    agree as well as long as no restart has been noticed.
   */
  lemma SnapshotPlusDiffs(screen: Screen, modes: Modes, actions: seq<Action>)
    ensures var w := Exec(Start(screen, modes), actions);
            w.alive && w.phase == Idle ==>
              && (!w.unencodable ==> w.view == w.observed)
              && (!w.noticed ==> w.viewModes == w.observedModes)
  {
    ExecTracks(screen, modes, actions);
  }

  /** Before the modes are observed nothing on its way changes them. */
  lemma GridLeavesModes(w: World)
    requires Tracks(w) && w.phase == GridSeen
    ensures SeenModes(w.viewModes, w.outbox) == w.viewModes
  {
    if w.outbox != [] {
      assert w.outbox[1..] == [];
    }
  }

  /**
    One observation of the modes, exactly: the first after a restart is not sent, so the sink agrees
    with it when it happens to show those modes already; any other is sent if it is new, so the sink
    then agrees with it or keeps the agreement it had.
   */
  lemma ModesAfterRestart(screen: Screen, modes: Modes, actions: seq<Action>)
    ensures var w := Exec(Start(screen, modes), actions);
            w.alive && w.phase == GridSeen ==>
              var w' := Apply(w, ObserveModes);
              && w'.observedModes == w.modes
              && (SeenModes(w'.viewModes, w'.outbox) == w.modes <==>
                    w.viewModes == w.modes || (w.lastModes.Some? && w.lastModes.value != w.modes))
  {
    ExecTracks(screen, modes, actions);
    var w := Exec(Start(screen, modes), actions);
    if w.phase == GridSeen {
      ObservedModes(w);
    }
  }

  lemma ObservedModes(w: World)
    requires Tracks(w) && w.phase == GridSeen
    ensures var w' := Apply(w, ObserveModes);
            SeenModes(w'.viewModes, w'.outbox)
              == if w.lastModes.Some? && w.lastModes.value != w.modes then w.modes else w.viewModes
  {
    GridLeavesModes(w);
    SeenModesFrame(w.view, w.viewModes, w.outbox, w.modes);
    assert w.outbox + [] == w.outbox;
  }

  /** The pump observes modes here, and does not send them because they are its first after a restart. */
  predicate Unsent(w: World, a: Action) {
    a.ObserveModes? && Enabled(w, a) && w.lastModes.None? && w.viewModes != w.modes
  }

  /** Any observation of modes here finds those of the one before. */
  predicate Quiet(w: World, a: Action) {
    a.ObserveModes? && Enabled(w, a) ==> w.lastModes == Some(w.modes)
  }

  /** The `i`-th action left the sink's modes stale, and no observation since has found others. */
  ghost predicate StaleSince(start: World, actions: seq<Action>, i: nat) {
    && i < |actions| && Unsent(Exec(start, actions[..i]), actions[i])
    && forall k :: i < k < |actions| ==> Quiet(Exec(start, actions[..k]), actions[k])
  }

  predicate Stale(w: World) {
    SeenModes(w.viewModes, w.outbox) != w.observedModes
  }

  lemma StaleStep(w: World, a: Action)
    requires Tracks(w) && Enabled(w, a) && Apply(w, a).alive
    ensures Stale(Apply(w, a)) <==> Unsent(w, a) || (Stale(w) && Quiet(w, a))
  {
    if a.ObserveModes? {
      ObservedModes(w);
      GridLeavesModes(w);
    } else if a.ObserveGrid? {
      TracksStep(w, a);
      GridLeavesModes(Apply(w, a));
    }
  }

  lemma StaleSinceLast(start: World, actions: seq<Action>, i: nat)
    requires actions != []
    ensures var n := |actions| - 1; var w := Exec(start, actions[..n]);
            StaleSince(start, actions, i) <==>
              (i == n && Unsent(w, actions[n])) || (StaleSince(start, actions[..n], i) && Quiet(w, actions[n]))
  {
    var n := |actions| - 1;
    forall k | 0 <= k < n ensures actions[..n][..k] == actions[..k] && actions[..n][k] == actions[k] {}
    if StaleSince(start, actions[..n], i) && Quiet(Exec(start, actions[..n]), actions[n]) {
      forall k | i < k < |actions| ensures Quiet(Exec(start, actions[..k]), actions[k]) {
        if k < n {
          assert Quiet(Exec(start, actions[..n][..k]), actions[..n][k]);
        }
      }
    }
    if StaleSince(start, actions, i) && i < n {
      forall k | i < k < n ensures Quiet(Exec(start, actions[..n][..k]), actions[..n][k]) {
        assert Quiet(Exec(start, actions[..k]), actions[k]);
      }
    }
  }

  ghost predicate EverStale(start: World, actions: seq<Action>) {
    exists i: nat :: StaleSince(start, actions, i)
  }

  lemma EverStaleLast(start: World, actions: seq<Action>)
    requires actions != []
    ensures var n := |actions| - 1; var w := Exec(start, actions[..n]);
            EverStale(start, actions) <==>
              Unsent(w, actions[n]) || (EverStale(start, actions[..n]) && Quiet(w, actions[n]))
  {
    var n := |actions| - 1;
    StaleSinceLast(start, actions, n);
    if i: nat :| StaleSince(start, actions, i) {
      StaleSinceLast(start, actions, i);
    }
    if i: nat :| StaleSince(start, actions[..n], i) {
      StaleSinceLast(start, actions, i);
    }
  }

  /**
    When the sink's modes are stale, exactly, over every run: if and only if the pump once observed,
    first after a restart, modes the sink does not show, and every observation since found the modes
    of the one before. A change observed later, or modes that happen to agree after the next
    restart, end it.
   */
  lemma {:induction false} ModesStaleExactlyWhen(screen: Screen, modes: Modes, actions: seq<Action>)
    ensures var w := Exec(Start(screen, modes), actions);
            && (w.alive ==> (Stale(w) <==> EverStale(Start(screen, modes), actions)))
            && (w.alive && w.phase == Idle ==>
                  (w.viewModes != w.observedModes <==> EverStale(Start(screen, modes), actions)))
  {
    ExecTracks(screen, modes, actions);
    if actions != [] {
      var n := |actions| - 1;
      var w := Exec(Start(screen, modes), actions[..n]);
      ModesStaleExactlyWhen(screen, modes, actions[..n]);
      ExecTracks(screen, modes, actions[..n]);
      EverStaleLast(Start(screen, modes), actions);
      if Enabled(w, actions[n]) && Apply(w, actions[n]).alive {
        StaleStep(w, actions[n]);
      }
    }
  }

  // ---------------------------------------------------------------- what the state stands for

  /** The screen and the modes the session last drew. */
  function LastDrawn(screen: Screen, modes: Modes, actions: seq<Action>): (Screen, Modes) {
    if actions == [] then (screen, modes)
    else
      match actions[|actions| - 1]
      case Draw(s, m) => (s, m)
      case Restart(s, m) => (s, m)
      case _ => LastDrawn(screen, modes, actions[..|actions| - 1])
  }

  /** What the session showed when the pump last looked. */
  function LastObserved(screen: Screen, modes: Modes, actions: seq<Action>): (Screen, Modes) {
    if actions == [] then (screen, modes)
    else
      var front, a := actions[..|actions| - 1], actions[|actions| - 1];
      var w, seen := Exec(Start(screen, modes), front), LastObserved(screen, modes, front);
      if a.ObserveGrid? && Enabled(w, a) then (LastDrawn(screen, modes, front).0, seen.1)
      else if a.ObserveModes? && Enabled(w, a) then (seen.0, LastDrawn(screen, modes, front).1)
      else seen
  }

  lemma {:induction false} SessionIsLastDrawn(screen: Screen, modes: Modes, actions: seq<Action>)
    ensures var w := Exec(Start(screen, modes), actions); (w.screen, w.modes) == LastDrawn(screen, modes, actions)
  {
    if actions != [] {
      SessionIsLastDrawn(screen, modes, actions[..|actions| - 1]);
    }
  }

  /** The pump observes what the session drew last. */
  lemma {:induction false} ObservedIsLastDrawn(screen: Screen, modes: Modes, actions: seq<Action>)
    ensures var w := Exec(Start(screen, modes), actions);
            (w.observed, w.observedModes) == LastObserved(screen, modes, actions)
  {
    if actions != [] {
      ObservedIsLastDrawn(screen, modes, actions[..|actions| - 1]);
      SessionIsLastDrawn(screen, modes, actions[..|actions| - 1]);
    }
  }

  lemma {:induction false} AttachedUntilItFails(screen: Screen, modes: Modes, actions: seq<Action>)
    ensures Exec(Start(screen, modes), actions).alive <==> SinkFails !in actions
  {
    if actions != [] {
      var n := |actions| - 1;
      AttachedUntilItFails(screen, modes, actions[..n]);
      assert actions == actions[..n] + [actions[n]];
    }
  }

  /** The session was replaced by the `i`-th action and the pump has not noticed since. */
  ghost predicate ReplacedAt(start: World, actions: seq<Action>, i: nat) {
    i < |actions| && actions[i].Restart? &&
    forall k :: i < k < |actions| ==> !Notices(Exec(start, actions[..k]), actions[k])
  }

  predicate Notices(w: World, a: Action) {
    a.NoticeRestart? && Enabled(w, a)
  }

  ghost predicate Replaced(start: World, actions: seq<Action>) {
    exists i: nat :: ReplacedAt(start, actions, i)
  }

  lemma ReplacedAtLast(start: World, actions: seq<Action>, i: nat)
    requires actions != []
    ensures var n := |actions| - 1; var a := actions[n];
            ReplacedAt(start, actions, i) <==>
              (i == n && a.Restart?)
              || (ReplacedAt(start, actions[..n], i) && !Notices(Exec(start, actions[..n]), a))
  {
    var n := |actions| - 1;
    forall k | i < k < n
      ensures Notices(Exec(start, actions[..n][..k]), actions[..n][k]) == Notices(Exec(start, actions[..k]), actions[k])
    {
      assert actions[..n][..k] == actions[..k];
    }
  }

  lemma ReplacedLast(start: World, actions: seq<Action>)
    requires actions != []
    ensures var n := |actions| - 1; var a := actions[n];
            Replaced(start, actions) <==>
              a.Restart? || (Replaced(start, actions[..n]) && !Notices(Exec(start, actions[..n]), a))
  {
    var n := |actions| - 1;
    ReplacedAtLast(start, actions, n);
    if i: nat :| ReplacedAt(start, actions, i) {
      ReplacedAtLast(start, actions, i);
    }
    if i: nat :| ReplacedAt(start, actions[..n], i) {
      ReplacedAtLast(start, actions, i);
    }
  }

  lemma WakeStep(w: World, a: Action)
    requires w.wake <= w.source && Enabled(w, a)
    ensures Apply(w, a).wake <= Apply(w, a).source
    ensures Apply(w, a).wake != Apply(w, a).source <==> a.Restart? || (w.wake != w.source && !Notices(w, a))
  {
  }

  /** Between rounds the pump notices a replaced session, once for any number of replacements, and nothing else. */
  lemma {:induction false} NoticesExactlyWhenReplaced(screen: Screen, modes: Modes, actions: seq<Action>)
    ensures var w := Exec(Start(screen, modes), actions);
            && w.wake <= w.source
            && (w.wake != w.source <==> Replaced(Start(screen, modes), actions))
            && (w.phase == Idle ==> (Enabled(w, NoticeRestart) <==> Replaced(Start(screen, modes), actions)))
  {
    if actions != [] {
      var n := |actions| - 1;
      NoticesExactlyWhenReplaced(screen, modes, actions[..n]);
      ReplacedLast(Start(screen, modes), actions);
      if Enabled(Exec(Start(screen, modes), actions[..n]), actions[n]) {
        WakeStep(Exec(Start(screen, modes), actions[..n]), actions[n]);
      }
    }
  }

  lemma ExecSnoc(start: World, actions: seq<Action>, a: Action)
    requires Enabled(Exec(start, actions), a)
    ensures Exec(start, actions + [a]) == Apply(Exec(start, actions), a)
  {
    assert (actions + [a])[..|actions|] == actions;
  }

  /** A session that restarts out of the alternate screen leaves the sink believing it is still on it. */
  lemma RestartLeavesModesStale(screen: Screen) returns (actions: seq<Action>)
    ensures var w := Exec(Start(screen, Modes(true, false)), actions);
            w.alive && w.phase == Idle && w.view == w.observed == w.screen &&
            w.viewModes != w.observedModes == w.modes
  {
    var start := Start(screen, Modes(true, false));
    actions := [];
    ExecSnoc(start, actions, Restart(screen, Modes(false, false)));
    actions := actions + [Restart(screen, Modes(false, false))];
    ExecSnoc(start, actions, NoticeRestart);
    actions := actions + [NoticeRestart];
    ExecSnoc(start, actions, ObserveGrid(true));
    actions := actions + [ObserveGrid(true)];
    ExecSnoc(start, actions, ObserveModes);
    actions := actions + [ObserveModes];
    assert Exec(start, actions).outbox == [GridFrame(Full(screen))];
    ExecSnoc(start, actions, WriteFrame);
    actions := actions + [WriteFrame];
    ExecSnoc(start, actions, RoundEnds);
    actions := actions + [RoundEnds];
  }
}
