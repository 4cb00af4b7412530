/**
  The transactional handoff between two nodes (node_client.rs, NodeClient.handoff). A run is any sequence of replies
  to its awaits: success, an error, or the operation's own timeout.
 */
module Handoff {
  import opened Common

  datatype Node = Source | Target

  datatype Checkpoint = Checkpoint(id: nat, files: seq<nat>, providerState: Option<nat>, hasSession: bool)

  /** Everything either node is ever asked. */
  datatype Call =
    | Hello
    | AccountStatus
    | Prepare
    | ManifestPut(checkpoint: nat)
    | BlobHas(digests: seq<nat>)
    | BlobRead(digest: nat, offset: nat)
    | BlobPut(digest: nat, offset: nat, hex: string, eof: bool)
    | Stage(checkpoint: nat)
    | ProviderResume(checkpoint: nat)
    | Commit(node: Node, checkpoint: nat, lease: nat)
    | Abort(node: Node, checkpoint: nat)

  datatype Reply =
    | Ok
    | Status(ready: bool)
    | Prepared(c: Checkpoint)
    | Missing(digests: seq<nat>)
    | Chunk(hex: string, eof: bool)
    | PutDone(complete: bool)
    | Lease(lease: nat)
    | Error
    | Timeout        // the timeout around the whole operation

  /** One blob's progress: the chunks the target has acknowledged. */
  datatype Transfer = Transfer(digest: nat, chunks: seq<string>, closed: bool)

  datatype Phase =
    | AtHello
    | AtStatus
    | AtPrepare
    | AtManifest(c: Checkpoint)
    | AtBlobHas(c: Checkpoint)
    | AtRead(c: Checkpoint, missing: seq<nat>, offset: nat)
    | AtPut(c: Checkpoint, missing: seq<nat>, offset: nat, hex: string, eof: bool)
    | AtStage(c: Checkpoint)
    | AtProvider(c: Checkpoint)
    | AtLease(c: Checkpoint)
    | AtTargetCommit(c: Checkpoint, lease: nat)
    | AtSourceCommit(c: Checkpoint, lease: nat)
    | AtTargetAbort(c: Checkpoint)
    | AtSourceAbort(c: Checkpoint)
    | Refused                  // failed before the operation began
    | Moved(c: Checkpoint, lease: nat)
    | Failed(c: Checkpoint)

  /** `missing` is the target's answer; `transfers[i]` is the transfer of `missing[i]`. */
  datatype State = State(
    phase: Phase, asked: seq<Call>, acked: set<Call>, missing: seq<nat>, transfers: seq<Transfer>)

  const INITIAL := State(AtHello, [Hello], {}, [], [])

  /** The phases of the operation that runs under the timeout. */
  predicate InOperation(p: Phase) {
    p.AtManifest? || p.AtBlobHas? || p.AtRead? || p.AtPut? || p.AtStage? || p.AtProvider? || p.AtLease? ||
    p.AtTargetCommit? || p.AtSourceCommit?
  }

  /** The outstanding call is acknowledged. */
  function Acked(s: State): State {
    if s.asked == [] then s else s.(acked := s.acked + {s.asked[|s.asked| - 1]})
  }

  function Ask(s: State, p: Phase, call: Call): State {
    s.(phase := p, asked := s.asked + [call])
  }

  /** Any failure inside the operation aborts on the target first. */
  function Aborting(s: State, c: Checkpoint): State {
    Ask(s, AtTargetAbort(c), Abort(Target, c.id))
  }

  /** Moves on to the next missing blob, or to staging after the last one. */
  function NextBlob(s: State, c: Checkpoint, missing: seq<nat>): State {
    if missing == [] then Ask(s, AtStage(c), Stage(c.id))
    else
      Ask(s, AtRead(c, missing, 0), BlobRead(missing[0], 0))
        .(transfers := s.transfers + [Transfer(missing[0], [], false)])
  }

  function Digests(c: Checkpoint): seq<nat> {
    c.files + if c.providerState.Some? then [c.providerState.value] else []
  }

  function Append(transfers: seq<Transfer>, hex: string, closed: bool): seq<Transfer> {
    if transfers == [] then []
    else
      var n := |transfers| - 1;
      transfers[n := transfers[n].(chunks := transfers[n].chunks + [hex], closed := closed)]
  }

  function Step(s: State, r: Reply): State {
    match s.phase
    case AtHello => if r.Ok? then Ask(Acked(s), AtStatus, AccountStatus) else s.(phase := Refused)
    case AtStatus => if r.Status? && r.ready then Ask(Acked(s), AtPrepare, Prepare) else s.(phase := Refused)
    case AtPrepare =>
      if r.Prepared? && r.c.hasSession then Ask(Acked(s), AtManifest(r.c), ManifestPut(r.c.id))
      else s.(phase := Refused)
    case AtManifest(c) =>
      if r.Ok? then Ask(Acked(s), AtBlobHas(c), BlobHas(Digests(c))) else Aborting(s, c)
    case AtBlobHas(c) =>
      if r.Missing? then NextBlob(Acked(s).(missing := r.digests), c, r.digests) else Aborting(s, c)
    case AtRead(c, missing, offset) =>
      if r.Chunk? && missing != []
      then Ask(Acked(s), AtPut(c, missing, offset, r.hex, r.eof), BlobPut(missing[0], offset, r.hex, r.eof))
      else Aborting(s, c)
    case AtPut(c, missing, offset, hex, eof) =>
      if !r.PutDone? || missing == [] then Aborting(s, c)
      else if !eof then
        var offset' := offset + |hex| / 2;
        Ask(Acked(s), AtRead(c, missing, offset'), BlobRead(missing[0], offset'))
          .(transfers := Append(s.transfers, hex, false))
      else if !r.complete then Aborting(s, c)
      else NextBlob(Acked(s).(transfers := Append(s.transfers, hex, true)), c, missing[1..])
    case AtStage(c) => if r.Ok? then Ask(Acked(s), AtProvider(c), ProviderResume(c.id)) else Aborting(s, c)
    case AtProvider(c) => if r.Ok? then Acked(s).(phase := AtLease(c)) else Aborting(s, c)
    case AtLease(c) =>
      if r.Lease? then Ask(s, AtTargetCommit(c, r.lease), Commit(Target, c.id, r.lease)) else Aborting(s, c)
    case AtTargetCommit(c, lease) =>
      if r.Ok? then Ask(Acked(s), AtSourceCommit(c, lease), Commit(Source, c.id, lease)) else Aborting(s, c)
    case AtSourceCommit(c, lease) =>
      if r.Ok? then Acked(s).(phase := Moved(c, lease)) else Aborting(s, c)
    case AtTargetAbort(c) => Ask(s, AtSourceAbort(c), Abort(Source, c.id))
    case AtSourceAbort(c) => s.(phase := Failed(c))
    case _ => s
  }

  function Run(replies: seq<Reply>): State {
    if replies == [] then INITIAL
    else Step(Run(replies[..|replies| - 1]), replies[|replies| - 1])
  }

  // ---------------------------------------------------------------- invariant

  /** Bytes acknowledged so far; each hex chunk stands for half as many bytes. */
  function Written(chunks: seq<string>): nat {
    if chunks == [] then 0 else Written(chunks[..|chunks| - 1]) + |chunks[|chunks| - 1]| / 2
  }

  /** The checkpoint the operation is about, if it has begun. */
  function About(p: Phase): Option<Checkpoint> {
    match p
    case AtManifest(c) => Some(c)
    case AtBlobHas(c) => Some(c)
    case AtRead(c, _, _) => Some(c)
    case AtPut(c, _, _, _, _) => Some(c)
    case AtStage(c) => Some(c)
    case AtProvider(c) => Some(c)
    case AtLease(c) => Some(c)
    case AtTargetCommit(c, _) => Some(c)
    case AtSourceCommit(c, _) => Some(c)
    case AtTargetAbort(c) => Some(c)
    case AtSourceAbort(c) => Some(c)
    case Moved(c, _) => Some(c)
    case Failed(c) => Some(c)
    case _ => None
  }

  /** The outstanding call is the one the phase is waiting for. */
  ghost predicate Outstanding(s: State) {
    s.asked != [] &&
    var last := s.asked[|s.asked| - 1];
    match s.phase
    case AtHello => last == Hello
    case AtStatus => last == AccountStatus
    case AtPrepare => last == Prepare
    case AtManifest(c) => last == ManifestPut(c.id)
    case AtBlobHas(c) => last == BlobHas(Digests(c))
    case AtRead(c, missing, offset) => missing != [] && last == BlobRead(missing[0], offset)
    case AtPut(c, missing, offset, hex, eof) => missing != [] && last == BlobPut(missing[0], offset, hex, eof)
    case AtStage(c) => last == Stage(c.id)
    case AtProvider(c) => last == ProviderResume(c.id)
    case AtTargetCommit(c, lease) => last == Commit(Target, c.id, lease)
    case AtSourceCommit(c, lease) => last == Commit(Source, c.id, lease)
    case AtTargetAbort(c) => last == Abort(Target, c.id)
    case AtSourceAbort(c) => |s.asked| >= 2 && last == Abort(Source, c.id) && s.asked[|s.asked| - 2] == Abort(Target, c.id)
    case Failed(c) => |s.asked| >= 2 && last == Abort(Source, c.id) && s.asked[|s.asked| - 2] == Abort(Target, c.id)
    case _ => true
  }

  /** Every digest the target reported missing has been transferred to its end. */
  ghost predicate AllTransferred(s: State) {
    |s.transfers| == |s.missing| &&
    forall i :: 0 <= i < |s.missing| ==> s.transfers[i].digest == s.missing[i] && s.transfers[i].closed
  }

  ghost predicate Transferring(s: State, rest: seq<nat>, offset: nat) {
    && rest != [] && |rest| <= |s.missing| && rest == s.missing[|s.missing| - |rest|..]
    && |s.transfers| == |s.missing| - |rest| + 1
    && (forall i :: 0 <= i < |s.transfers| - 1 ==> s.transfers[i].digest == s.missing[i] && s.transfers[i].closed)
    && var now := s.transfers[|s.transfers| - 1];
       now.digest == rest[0] && !now.closed && Written(now.chunks) == offset
  }

  ghost predicate Progress(s: State) {
    match s.phase
    case AtRead(c, rest, offset) => Transferring(s, rest, offset)
    case AtPut(c, rest, offset, hex, eof) => Transferring(s, rest, offset)
    case AtStage(c) => AllTransferred(s)
    case AtProvider(c) => AllTransferred(s) && Stage(c.id) in s.acked
    case AtLease(c) => ReadyToCommit(s, c)
    case AtTargetCommit(c, lease) => ReadyToCommit(s, c)
    case AtSourceCommit(c, lease) => ReadyToCommit(s, c) && Commit(Target, c.id, lease) in s.acked
    case Moved(c, lease) =>
      ReadyToCommit(s, c) && Commit(Target, c.id, lease) in s.acked && Commit(Source, c.id, lease) in s.acked
    case AtTargetAbort(_) => true
    case AtSourceAbort(_) => true
    case Failed(_) => true
    case _ => s.transfers == [] && s.missing == []
  }

  /** What must have been acknowledged before any commit may be asked for. */
  ghost predicate ReadyToCommit(s: State, c: Checkpoint) {
    AllTransferred(s) && Stage(c.id) in s.acked && ProviderResume(c.id) in s.acked
  }

  /** A commit was asked for only about this checkpoint and only when everything was ready. */
  ghost predicate CommitAsked(s: State, n: Node, id: nat, lease: nat) {
    && !(InOperation(s.phase) && !s.phase.AtTargetCommit? && !s.phase.AtSourceCommit?)
    && About(s.phase).Some? && About(s.phase).value.id == id && ReadyToCommit(s, About(s.phase).value)
    && (n == Source ==> Commit(Target, id, lease) in s.acked)
    && (s.phase.AtTargetCommit? ==> n == Target)
  }

  ghost predicate AbortAsked(s: State, n: Node, id: nat) {
    && (s.phase.AtTargetAbort? || s.phase.AtSourceAbort? || s.phase.Failed?)
    && About(s.phase).value.id == id
  }

  ghost predicate Ordered(s: State) {
    && (forall n, id, lease :: Commit(n, id, lease) in s.asked ==> CommitAsked(s, n, id, lease))
    && (forall n, id :: Abort(n, id) in s.asked ==> AbortAsked(s, n, id))
  }

  ghost predicate Inv(s: State) {
    Outstanding(s) && Progress(s) && Ordered(s)
  }

  lemma OutstandingStep(s: State, r: Reply)
    requires Outstanding(s)
    ensures Outstanding(Step(s, r))
  {
    if s.phase.AtBlobHas? || s.phase.AtRead? || s.phase.AtPut? {
      OutstandingTransfer(s, r);
    }
  }

  lemma OutstandingTransfer(s: State, r: Reply)
    requires s.phase.AtBlobHas? || s.phase.AtRead? || s.phase.AtPut?
    ensures Outstanding(Step(s, r))
  {
  }

  lemma AppendLast(transfers: seq<Transfer>, hex: string, closed: bool)
    requires transfers != []
    ensures var t := Append(transfers, hex, closed);
            && |t| == |transfers| && t[..|t| - 1] == transfers[..|t| - 1]
            && t[|t| - 1].digest == transfers[|t| - 1].digest && t[|t| - 1].closed == closed
            && Written(t[|t| - 1].chunks) == Written(transfers[|t| - 1].chunks) + |hex| / 2
  {
    var n := |transfers| - 1;
    assert (transfers[n].chunks + [hex])[..|transfers[n].chunks|] == transfers[n].chunks;
  }

  /** Appending a chunk leaves the finished transfers as they are and moves the offset. */
  lemma AppendTransferring(s: State, rest: seq<nat>, offset: nat, hex: string)
    requires Transferring(s, rest, offset)
    ensures Transferring(s.(transfers := Append(s.transfers, hex, false)), rest, offset + |hex| / 2)
  {
    AppendLast(s.transfers, hex, false);
  }

  /** Appending the last chunk of a blob finishes one more transfer. */
  lemma AppendFinishes(s: State, rest: seq<nat>, offset: nat, hex: string)
    requires Transferring(s, rest, offset)
    ensures var t := Append(s.transfers, hex, true);
            && |t| == |s.missing| - |rest| + 1
            && forall i :: 0 <= i < |t| ==> t[i].digest == s.missing[i] && t[i].closed
  {
    AppendLast(s.transfers, hex, true);
    assert s.missing[|s.missing| - |rest|..][0] == s.missing[|s.missing| - |rest|];
  }

  lemma NextBlobProgress(s: State, c: Checkpoint, rest: seq<nat>)
    requires |rest| <= |s.missing| && rest == s.missing[|s.missing| - |rest|..]
    requires |s.transfers| == |s.missing| - |rest|
    requires forall i :: 0 <= i < |s.transfers| ==> s.transfers[i].digest == s.missing[i] && s.transfers[i].closed
    ensures Progress(NextBlob(s, c, rest))
  {
  }

  lemma PutProgress(s: State, r: Reply)
    requires Inv(s) && s.phase.AtPut?
    ensures Progress(Step(s, r))
  {
    var p := s.phase;
    if r.PutDone? && !p.eof {
      AppendTransferring(s, p.missing, p.offset, p.hex);
    } else if r.PutDone? && r.complete {
      AppendFinishes(s, p.missing, p.offset, p.hex);
      assert p.missing[1..] == s.missing[|s.missing| - |p.missing[1..]|..];
      NextBlobProgress(Acked(s).(transfers := Append(s.transfers, p.hex, true)), p.c, p.missing[1..]);
    }
  }

  lemma ReadProgress(s: State, r: Reply)
    requires Inv(s) && s.phase.AtRead?
    ensures Progress(Step(s, r))
  {
    assert Transferring(s, s.phase.missing, s.phase.offset);
  }

  lemma BlobHasProgress(s: State, r: Reply)
    requires Inv(s) && s.phase.AtBlobHas?
    ensures Progress(Step(s, r))
  {
    assert s.transfers == [] && s.missing == [];
    if r.Missing? {
      NextBlobProgress(Acked(s).(missing := r.digests), s.phase.c, r.digests);
    }
  }

  lemma CommitProgress(s: State, r: Reply)
    requires Inv(s)
    requires s.phase.AtStage? || s.phase.AtProvider? || s.phase.AtLease? || s.phase.AtTargetCommit? || s.phase.AtSourceCommit?
    ensures Progress(Step(s, r))
  {
  }

  lemma ProgressStep(s: State, r: Reply)
    requires Inv(s)
    ensures Progress(Step(s, r))
  {
    if s.phase.AtPut? {
      PutProgress(s, r);
    } else if s.phase.AtRead? {
      ReadProgress(s, r);
    } else if s.phase.AtBlobHas? {
      BlobHasProgress(s, r);
    } else if InOperation(s.phase) && !s.phase.AtManifest? {
      CommitProgress(s, r);
    }
  }

  lemma AskedGrows(s: State, r: Reply)
    ensures s.asked <= Step(s, r).asked && |Step(s, r).asked| <= |s.asked| + 1
    ensures s.acked <= Step(s, r).acked
    ensures forall call :: call in Step(s, r).asked <==>
              call in s.asked || call in Step(s, r).asked[|s.asked|..]
  {
    assert Step(s, r).asked == s.asked + Step(s, r).asked[|s.asked|..];
  }

  /** Commits are asked for in one place each. */
  lemma NewCommit(s: State, r: Reply, n: Node, id: nat, lease: nat)
    requires Outstanding(s) && Progress(s)
    requires Commit(n, id, lease) !in s.asked && Commit(n, id, lease) in Step(s, r).asked
    ensures CommitAsked(Step(s, r), n, id, lease)
  {
    AskedGrows(s, r);
    assert s.phase.AtLease? || s.phase.AtTargetCommit?;
  }

  lemma OldCommit(s: State, r: Reply, n: Node, id: nat, lease: nat)
    requires Outstanding(s) && Progress(s) && CommitAsked(s, n, id, lease)
    ensures CommitAsked(Step(s, r), n, id, lease)
  {
    AskedGrows(s, r);
    assert Step(s, r).transfers == s.transfers && Step(s, r).missing == s.missing;
  }

  /** What is asked anew is the last call. */
  lemma AskedLast(s: State, r: Reply, call: Call)
    requires call in Step(s, r).asked && call !in s.asked
    ensures |Step(s, r).asked| == |s.asked| + 1 && Step(s, r).asked[|s.asked|] == call
  {
    AskedGrows(s, r);
  }

  lemma AbortStep(s: State, r: Reply, n: Node, id: nat)
    requires Abort(n, id) in s.asked ==> AbortAsked(s, n, id)
    requires Abort(n, id) in Step(s, r).asked
    ensures AbortAsked(Step(s, r), n, id)
  {
    if Abort(n, id) !in s.asked {
      AskedLast(s, r, Abort(n, id));
    }
  }

  lemma OrderedStep(s: State, r: Reply)
    requires Inv(s)
    ensures Ordered(Step(s, r))
  {
    forall n, id, lease | Commit(n, id, lease) in Step(s, r).asked
      ensures CommitAsked(Step(s, r), n, id, lease)
    {
      if Commit(n, id, lease) in s.asked {
        OldCommit(s, r, n, id, lease);
      } else {
        NewCommit(s, r, n, id, lease);
      }
    }
    forall n, id | Abort(n, id) in Step(s, r).asked ensures AbortAsked(Step(s, r), n, id) {
      assert Abort(n, id) in s.asked ==> AbortAsked(s, n, id);
      AbortStep(s, r, n, id);
    }
  }

  lemma {:induction false} RunInv(replies: seq<Reply>)
    ensures Inv(Run(replies))
  {
    if replies != [] {
      var s, r := Run(replies[..|replies| - 1]), replies[|replies| - 1];
      RunInv(replies[..|replies| - 1]);
      OutstandingStep(s, r);
      ProgressStep(s, r);
      OrderedStep(s, r);
    }
  }

  // ---------------------------------------------------------------- safety over all runs

  /** The list names exactly the checkpoint's files and, if it has one, its provider state. */
  ghost predicate Lists(digests: seq<nat>, c: Checkpoint) {
    forall d :: d in digests <==> d in c.files || c.providerState == Some(d)
  }

  /** The account is ready, the checkpoint has a session, its manifest is put, and the target said what it lacks. */
  ghost predicate Began(replies: seq<Reply>, s: State, c: Checkpoint) {
    && |replies| >= 5 && |s.asked| >= 5 && replies[4].Missing?
    && replies[..4] == [Ok, Status(true), Prepared(c), Ok] && c.hasSession
    && s.asked[..4] == [Hello, AccountStatus, Prepare, ManifestPut(c.id)]
    && s.asked[4].BlobHas? && Lists(s.asked[4].digests, c)
    && s.missing == replies[4].digests
  }

  /** How far the opening calls have got. */
  ghost predicate Opening(replies: seq<Reply>, s: State) {
    match s.phase
    case AtHello => replies == [] && s.asked == [Hello]
    case AtStatus => replies == [Ok] && s.asked == [Hello, AccountStatus]
    case AtPrepare => replies == [Ok, Status(true)] && s.asked == [Hello, AccountStatus, Prepare]
    case AtManifest(c) =>
      && replies == [Ok, Status(true), Prepared(c)] && c.hasSession
      && s.asked == [Hello, AccountStatus, Prepare, ManifestPut(c.id)]
    case AtBlobHas(c) =>
      && replies == [Ok, Status(true), Prepared(c), Ok] && c.hasSession && |s.asked| == 5
      && s.asked[..4] == [Hello, AccountStatus, Prepare, ManifestPut(c.id)]
      && s.asked[4].BlobHas? && Lists(s.asked[4].digests, c)
    case AtTargetAbort(c) => AnyCommit(s) ==> Began(replies, s, c)
    case AtSourceAbort(c) => AnyCommit(s) ==> Began(replies, s, c)
    case Failed(c) => AnyCommit(s) ==> Began(replies, s, c)
    case Refused => true
    case _ => About(s.phase).Some? && Began(replies, s, About(s.phase).value)
  }

  ghost predicate AnyCommit(s: State) {
    exists n, id, lease :: Commit(n, id, lease) in s.asked
  }

  lemma DigestsList(c: Checkpoint)
    ensures Lists(Digests(c), c)
  {
  }

  lemma BeganStays(replies: seq<Reply>, s: State, r: Reply, c: Checkpoint)
    requires Began(replies, s, c) && Step(s, r).missing == s.missing
    ensures Began(replies + [r], Step(s, r), c)
  {
    AskedGrows(s, r);
    assert (replies + [r])[..4] == replies[..4] && (replies + [r])[4] == replies[4];
    assert Step(s, r).asked[..4] == s.asked[..4] && Step(s, r).asked[4] == s.asked[4];
  }

  lemma EarlyStep(replies: seq<Reply>, s: State, r: Reply)
    requires Opening(replies, s) && Outstanding(s) && !AnyCommit(s)
    requires s.phase.AtHello? || s.phase.AtStatus? || s.phase.AtPrepare? || s.phase.AtManifest?
    ensures Opening(replies + [r], Step(s, r)) && !AnyCommit(Step(s, r))
  {
    if s.phase.AtManifest? && r.Ok? {
      DigestsList(s.phase.c);
      assert Step(s, r).asked[..4] == s.asked;
    }
  }

  lemma BlobHasStep(replies: seq<Reply>, s: State, r: Reply)
    requires Opening(replies, s) && s.phase.AtBlobHas? && !AnyCommit(s)
    ensures Opening(replies + [r], Step(s, r)) && !AnyCommit(Step(s, r))
  {
    assert (replies + [r])[..4] == replies;
    assert Step(s, r).asked[..4] == s.asked[..4] && Step(s, r).asked[4] == s.asked[4];
  }

  lemma LateStep(replies: seq<Reply>, s: State, r: Reply)
    requires Opening(replies, s)
    requires !s.phase.AtHello? && !s.phase.AtStatus? && !s.phase.AtPrepare? && !s.phase.AtManifest? && !s.phase.AtBlobHas?
    ensures Opening(replies + [r], Step(s, r))
  {
    AskedGrows(s, r);
    if About(s.phase).Some? && Began(replies, s, About(s.phase).value) {
      BeganStays(replies, s, r, About(s.phase).value);
    } else {
      assert !AnyCommit(s) ==> !AnyCommit(Step(s, r)) || s.phase.AtLease?;
    }
  }

  /** Until the target has said what it lacks no commit is asked for. */
  lemma NoEarlyCommit(s: State)
    requires Inv(s)
    requires s.phase.AtHello? || s.phase.AtStatus? || s.phase.AtPrepare? || s.phase.AtManifest? || s.phase.AtBlobHas?
    ensures !AnyCommit(s)
  {
    if n, id, lease :| Commit(n, id, lease) in s.asked {
      assert false;
    }
  }

  lemma {:induction false} RunOpening(replies: seq<Reply>)
    ensures Opening(replies, Run(replies))
  {
    if replies != [] {
      var front, r := replies[..|replies| - 1], replies[|replies| - 1];
      var s := Run(front);
      RunOpening(front);
      RunInv(front);
      assert replies == front + [r];
      if s.phase.AtBlobHas? {
        NoEarlyCommit(s);
        BlobHasStep(front, s, r);
      } else if s.phase.AtHello? || s.phase.AtStatus? || s.phase.AtPrepare? || s.phase.AtManifest? {
        NoEarlyCommit(s);
        EarlyStep(front, s, r);
      } else {
        LateStep(front, s, r);
      }
    }
  }

  /** The target answered the put that ended this blob, and answered that the blob is complete. */
  ghost predicate Confirmed(replies: seq<Reply>, digest: nat) {
    exists k :: 0 <= k < |replies| && ConfirmedAt(Run(replies[..k]), replies[k], digest)
  }

  predicate ConfirmedAt(s: State, r: Reply, digest: nat) {
    r == PutDone(true) && s.asked != [] &&
    var last := s.asked[|s.asked| - 1];
    last.BlobPut? && last.digest == digest && last.eof
  }

  lemma ConfirmedStays(replies: seq<Reply>, digest: nat)
    requires replies != []
    ensures var n := |replies| - 1;
            Confirmed(replies[..n], digest) || ConfirmedAt(Run(replies[..n]), replies[n], digest) ==> Confirmed(replies, digest)
  {
    var n := |replies| - 1;
    if k :| 0 <= k < n && ConfirmedAt(Run(replies[..n][..k]), replies[..n][k], digest) {
      assert replies[..n][..k] == replies[..k];
    }
  }

  /** A transfer is closed by the put that ends its blob, when the target calls the blob complete. */
  lemma ClosingStep(s: State, r: Reply, i: nat)
    requires Inv(s) && i < |Step(s, r).transfers| && Step(s, r).transfers[i].closed
    ensures (i < |s.transfers| && s.transfers[i].closed && s.transfers[i].digest == Step(s, r).transfers[i].digest)
            || ConfirmedAt(s, r, Step(s, r).transfers[i].digest)
  {
    if s.phase.AtPut? {
      assert Transferring(s, s.phase.missing, s.phase.offset);
      TransfersAfterPut(s, r, i);
    } else {
      TransfersOtherwise(s, r, i);
    }
  }

  lemma {:induction false} ClosedAreConfirmed(replies: seq<Reply>, i: nat)
    requires i < |Run(replies).transfers| && Run(replies).transfers[i].closed
    ensures Confirmed(replies, Run(replies).transfers[i].digest)
    decreases |replies|
  {
    if replies != [] {
      var n := |replies| - 1;
      RunInv(replies[..n]);
      ClosingStep(Run(replies[..n]), replies[n], i);
      if i < |Run(replies[..n]).transfers| && Run(replies[..n]).transfers[i].closed {
        ClosedAreConfirmed(replies[..n], i);
      }
      ConfirmedStays(replies, Run(replies).transfers[i].digest);
    }
  }

  lemma LeaseStep(s: State, r: Reply, n: Node, id: nat, lease: nat)
    requires Inv(s) && Commit(n, id, lease) in Step(s, r).asked && Commit(n, id, lease) !in s.asked
    ensures r == Lease(lease) || Commit(Target, id, lease) in s.asked
  {
    AskedLast(s, r, Commit(n, id, lease));
  }

  lemma {:induction false} LeaseIsGiven(replies: seq<Reply>, n: Node, id: nat, lease: nat)
    requires Commit(n, id, lease) in Run(replies).asked
    ensures Lease(lease) in replies
    decreases |replies|
  {
    if replies != [] {
      var front := replies[..|replies| - 1];
      RunInv(front);
      if Commit(n, id, lease) in Run(front).asked {
        LeaseIsGiven(front, n, id, lease);
      } else {
        LeaseStep(Run(front), replies[|replies| - 1], n, id, lease);
        if Commit(Target, id, lease) in Run(front).asked {
          LeaseIsGiven(front, Target, id, lease);
        }
      }
    }
  }

  /**
    The source is never asked to commit before the target acknowledged the same checkpoint and
    lease. Neither is asked to before the account was ready, the manifest put, and the target asked
    about every file of the checkpoint and its provider state; before each digest it then reported
    missing was put to its end and confirmed complete; and before staging and provider resume.
   */
  lemma CommitOrder(replies: seq<Reply>, n: Node, id: nat, lease: nat)
    requires Commit(n, id, lease) in Run(replies).asked
    ensures var s := Run(replies);
            && (n == Source ==> Commit(Target, id, lease) in s.acked)
            && Stage(id) in s.acked && ProviderResume(id) in s.acked && AllTransferred(s)
    ensures About(Run(replies).phase).Some? && About(Run(replies).phase).value.id == id
    ensures Began(replies, Run(replies), About(Run(replies).phase).value)
    ensures forall d :: d in replies[4].digests ==> Confirmed(replies, d)
    ensures Lease(lease) in replies
  {
    var s := Run(replies);
    assert CommitAsked(s, n, id, lease) by {
      RunInv(replies);
    }
    assert AnyCommit(s);
    RunOpening(replies);
    LeaseIsGiven(replies, n, id, lease);
    forall d | d in s.missing ensures Confirmed(replies, d) {
      var i :| 0 <= i < |s.missing| && s.missing[i] == d;
      ClosedAreConfirmed(replies, i);
    }
  }

  /** An acknowledged commit of the source ends the run. */
  ghost predicate SourceIsFinal(s: State) {
    forall id, lease :: Commit(Source, id, lease) in s.acked ==> s.phase.Moved?
  }

  lemma SourceIsFinalStep(s: State, r: Reply, id: nat, lease: nat)
    requires Outstanding(s) && SourceIsFinal(s) && Commit(Source, id, lease) in Step(s, r).acked
    ensures Step(s, r).phase.Moved?
  {
    if Commit(Source, id, lease) !in s.acked {
      assert s.asked[|s.asked| - 1] == Commit(Source, id, lease);
    }
  }

  lemma {:induction false} SourceCommitIsFinal(replies: seq<Reply>)
    ensures SourceIsFinal(Run(replies))
  {
    if replies != [] {
      var s, r := Run(replies[..|replies| - 1]), replies[|replies| - 1];
      SourceCommitIsFinal(replies[..|replies| - 1]);
      RunInv(replies[..|replies| - 1]);
      forall id, lease | Commit(Source, id, lease) in Step(s, r).acked ensures Step(s, r).phase.Moved? {
        SourceIsFinalStep(s, r, id, lease);
      }
    }
  }

  /**
    A run that entered the operation ends either with both commits acknowledged and no abort, or
    with aborts attempted on the target and then on the source, last of all, and the source's
    commit never acknowledged. One that was refused earlier asked neither.
   */
  lemma HandoffEnds(replies: seq<Reply>)
    ensures var s := Run(replies);
            match s.phase
            case Moved(c, lease) =>
              && Commit(Target, c.id, lease) in s.acked && Commit(Source, c.id, lease) in s.acked
              && forall n, id :: Abort(n, id) !in s.asked
            case Failed(c) =>
              && |s.asked| >= 2 && s.asked[|s.asked| - 2..] == [Abort(Target, c.id), Abort(Source, c.id)]
              && forall id, lease :: Commit(Source, id, lease) !in s.acked
            case Refused =>
              (forall n, id, lease :: Commit(n, id, lease) !in s.asked) && forall n, id :: Abort(n, id) !in s.asked
            case _ => true
  {
    RunInv(replies);
    SourceCommitIsFinal(replies);
    var s := Run(replies);
    forall n, id | Abort(n, id) in s.asked ensures AbortAsked(s, n, id) {}
    forall n, id, lease | Commit(n, id, lease) in s.asked ensures CommitAsked(s, n, id, lease) {}
  }

  /** From any phase of the operation, a failure leads through both aborts whatever they answer. */
  lemma FailureReachesBothAborts(s: State, r: Reply, r1: Reply, r2: Reply)
    requires InOperation(s.phase) && (r.Error? || r.Timeout?)
    ensures var s' := Step(Step(Step(s, r), r1), r2);
            && s'.phase == Failed(About(s.phase).value) && s'.acked == s.acked
            && s'.asked == s.asked + [Abort(Target, About(s.phase).value.id), Abort(Source, About(s.phase).value.id)]
  {
  }

  // ---------------------------------------------------------------- blobs arrive whole

  const DIGITS := "0123456789abcdef"

  function Hex(bytes: seq<Byte>): (r: string)
    ensures |r| == 2 * |bytes|
  {
    if bytes == [] then "" else [DIGITS[bytes[0] / 16], DIGITS[bytes[0] % 16]] + Hex(bytes[1..])
  }

  lemma {:induction false} HexConcat(a: seq<Byte>, b: seq<Byte>)
    ensures Hex(a + b) == Hex(a) + Hex(b)
  {
    if a == [] {
      assert a + b == b;
    } else {
      assert (a + b)[1..] == a[1..] + b;
      HexConcat(a[1..], b);
    }
  }

  function Joined(chunks: seq<string>): string {
    if chunks == [] then "" else Joined(chunks[..|chunks| - 1]) + chunks[|chunks| - 1]
  }

  /** A source that serves `blob`: each chunk starts at the offset asked for, and only the last ends it. */
  ghost predicate IsChunkOf(hex: string, eof: bool, blob: seq<Byte>, offset: nat) {
    var end := offset + |hex| / 2;
    end <= |blob| && hex == Hex(blob[offset..end]) && (eof <==> end == |blob|)
  }

  ghost predicate Serves(s: State, r: Reply, blobs: nat -> seq<Byte>) {
    s.phase.AtRead? && s.phase.missing != [] && r.Chunk? ==>
      IsChunkOf(r.hex, r.eof, blobs(s.phase.missing[0]), s.phase.offset)
  }

  /** Every read of the run was answered by a source of `blobs`. */
  ghost predicate Served(replies: seq<Reply>, blobs: nat -> seq<Byte>) {
    forall i :: 0 <= i < |replies| ==> Serves(Run(replies[..i]), replies[i], blobs)
  }

  ghost predicate Faithful(t: Transfer, blobs: nat -> seq<Byte>) {
    && Written(t.chunks) <= |blobs(t.digest)|
    && Joined(t.chunks) == Hex(blobs(t.digest)[..Written(t.chunks)])
    && (t.closed ==> Joined(t.chunks) == Hex(blobs(t.digest)))
  }

  ghost predicate FaithfulAll(transfers: seq<Transfer>, blobs: nat -> seq<Byte>) {
    forall i :: 0 <= i < |transfers| ==> Faithful(transfers[i], blobs)
  }

  ghost predicate AllFaithful(s: State, blobs: nat -> seq<Byte>) {
    && FaithfulAll(s.transfers, blobs)
    && (s.phase.AtPut? && s.phase.missing != [] ==>
          IsChunkOf(s.phase.hex, s.phase.eof, blobs(s.phase.missing[0]), s.phase.offset))
  }

  lemma FaithfulAppend(t: Transfer, hex: string, eof: bool, blobs: nat -> seq<Byte>)
    requires Faithful(t, blobs) && IsChunkOf(hex, eof, blobs(t.digest), Written(t.chunks))
    ensures Faithful(Transfer(t.digest, t.chunks + [hex], eof), blobs)
  {
    ChunksSnoc(t.chunks, hex);
    HexUpTo(blobs(t.digest), Written(t.chunks), hex, eof);
  }

  lemma ChunksSnoc(chunks: seq<string>, hex: string)
    ensures Joined(chunks + [hex]) == Joined(chunks) + hex && Written(chunks + [hex]) == Written(chunks) + |hex| / 2
  {
    assert (chunks + [hex])[..|chunks|] == chunks;
  }

  lemma HexUpTo(blob: seq<Byte>, offset: nat, hex: string, eof: bool)
    requires IsChunkOf(hex, eof, blob, offset)
    ensures Hex(blob[..offset]) + hex == Hex(blob[..offset + |hex| / 2])
    ensures eof ==> blob[..offset + |hex| / 2] == blob
  {
    HexConcat(blob[..offset], blob[offset..offset + |hex| / 2]);
    assert blob[..offset] + blob[offset..offset + |hex| / 2] == blob[..offset + |hex| / 2];
  }

  lemma FaithfulAppended(transfers: seq<Transfer>, hex: string, eof: bool, blobs: nat -> seq<Byte>)
    requires FaithfulAll(transfers, blobs) && transfers != []
    requires var t := transfers[|transfers| - 1]; IsChunkOf(hex, eof, blobs(t.digest), Written(t.chunks))
    ensures FaithfulAll(Append(transfers, hex, eof), blobs)
  {
    FaithfulAppend(transfers[|transfers| - 1], hex, eof, blobs);
  }

  /** What an answer to a put makes of the transfers: nothing, one more chunk, or also a new transfer. */
  lemma TransfersAfterPut(s: State, r: Reply, i: nat)
    requires s.phase.AtPut? && i < |Step(s, r).transfers|
    ensures var p := s.phase; var t := Append(s.transfers, p.hex, p.eof); var now := Step(s, r).transfers[i];
            || (i < |s.transfers| && now == s.transfers[i])
            || (i < |t| == |s.transfers| && now == t[i])
            || (now.chunks == [] && !now.closed)
  {
  }

  /** Any other answer leaves the transfers as they are or begins one. */
  lemma TransfersOtherwise(s: State, r: Reply, i: nat)
    requires !s.phase.AtPut? && i < |Step(s, r).transfers|
    ensures var now := Step(s, r).transfers[i];
            (i < |s.transfers| && now == s.transfers[i]) || (now.chunks == [] && !now.closed)
  {
  }

  lemma FaithfulStepAt(s: State, r: Reply, blobs: nat -> seq<Byte>, i: nat)
    requires FaithfulAll(s.transfers, blobs) && i < |Step(s, r).transfers|
    requires s.phase.AtPut? ==> FaithfulAll(Append(s.transfers, s.phase.hex, s.phase.eof), blobs)
    ensures Faithful(Step(s, r).transfers[i], blobs)
  {
    if s.phase.AtPut? {
      TransfersAfterPut(s, r, i);
    } else {
      TransfersOtherwise(s, r, i);
    }
  }

  lemma FaithfulStep(s: State, r: Reply, blobs: nat -> seq<Byte>)
    requires Inv(s) && AllFaithful(s, blobs) && Serves(s, r, blobs)
    ensures AllFaithful(Step(s, r), blobs)
  {
    if s.phase.AtPut? {
      assert Transferring(s, s.phase.missing, s.phase.offset);
      FaithfulAppended(s.transfers, s.phase.hex, s.phase.eof, blobs);
    }
    forall i | 0 <= i < |Step(s, r).transfers| ensures Faithful(Step(s, r).transfers[i], blobs) {
      FaithfulStepAt(s, r, blobs, i);
    }
    NextPutServed(s, r, blobs);
  }

  lemma NextPutServed(s: State, r: Reply, blobs: nat -> seq<Byte>)
    requires Serves(s, r, blobs)
    ensures var p := Step(s, r).phase;
            p.AtPut? && p.missing != [] ==> IsChunkOf(p.hex, p.eof, blobs(p.missing[0]), p.offset)
  {
  }

  /**
    Given a source that serves each blob from the offset asked for, every transfer the target
    acknowledged to its end consists of contiguous chunks that join up to exactly that blob.
   */
  lemma {:induction false} BlobsArriveWhole(replies: seq<Reply>, blobs: nat -> seq<Byte>)
    requires Served(replies, blobs)
    ensures AllFaithful(Run(replies), blobs)
    ensures forall t :: t in Run(replies).transfers && t.closed ==> Joined(t.chunks) == Hex(blobs(t.digest))
  {
    if replies != [] {
      var front := replies[..|replies| - 1];
      assert forall i :: 0 <= i < |front| ==> front[..i] == replies[..i] && front[i] == replies[i];
      BlobsArriveWhole(front, blobs);
      RunInv(front);
      FaithfulStep(Run(front), replies[|replies| - 1], blobs);
    }
  }

  /**
    Each chunk is put at the number of bytes acknowledged before it; when a chunk that does not
    end the blob is not empty, the bytes still to come decrease.
   */
  lemma ChunksAreContiguous(replies: seq<Reply>, blobs: nat -> seq<Byte>)
    requires Served(replies, blobs)
    requires Run(replies).phase.AtPut?
    ensures var s := Run(replies); var p := s.phase;
            && |p.missing| > 0 && |s.asked| > 0 && |s.transfers| > 0
            && s.asked[|s.asked| - 1] == BlobPut(p.missing[0], Written(s.transfers[|s.transfers| - 1].chunks), p.hex, p.eof)
            && (!p.eof && p.hex != "" ==>
                  0 <= |blobs(p.missing[0])| - (p.offset + |p.hex| / 2) < |blobs(p.missing[0])| - p.offset)
  {
    var s := Run(replies);
    assert Outstanding(s) && Progress(s) by {
      RunInv(replies);
    }
    PutIsOutstanding(s);
    var p := s.phase;
    assert IsChunkOf(p.hex, p.eof, blobs(p.missing[0]), p.offset) by {
      BlobsArriveWhole(replies, blobs);
    }
    ChunkAdvances(p.hex, p.eof, blobs(p.missing[0]), p.offset);
  }

  lemma PutIsOutstanding(s: State)
    requires Outstanding(s) && Progress(s) && s.phase.AtPut?
    ensures var p := s.phase;
            && |p.missing| > 0 && |s.asked| > 0 && |s.transfers| > 0
            && s.asked[|s.asked| - 1] == BlobPut(p.missing[0], Written(s.transfers[|s.transfers| - 1].chunks), p.hex, p.eof)
  {
    assert Transferring(s, s.phase.missing, s.phase.offset);
  }

  lemma ChunkAdvances(hex: string, eof: bool, blob: seq<Byte>, offset: nat)
    requires IsChunkOf(hex, eof, blob, offset)
    ensures !eof && hex != "" ==> 0 <= |blob| - (offset + |hex| / 2) < |blob| - offset
  {
    assert |hex| == 2 * |blob[offset..offset + |hex| / 2]|;
  }

  /** Against such a source a chunk that is not the last moves the offset on exactly when it is not empty. */
  lemma TransferAdvances(s: State, r: Reply, ack: Reply, blobs: nat -> seq<Byte>)
    requires s.phase.AtRead? && s.phase.missing != [] && Serves(s, r, blobs)
    requires r.Chunk? && !r.eof && ack.PutDone?
    ensures var blob := blobs(s.phase.missing[0]);
            var next := Step(Step(s, r), ack).phase;
            && next.AtRead? && next.missing == s.phase.missing
            && next.offset <= |blob|
            && (|blob| - next.offset < |blob| - s.phase.offset <==> r.hex != "")
            && next.offset < |blob|
  {
    var blob, offset := blobs(s.phase.missing[0]), s.phase.offset;
    assert |Hex(blob[offset..offset + |r.hex| / 2])| == 2 * (|r.hex| / 2);
  }

  // ---------------------------------------------------------------- how often a blob is read

  function EmptyChunks(chunks: seq<string>): nat {
    if chunks == [] then 0
    else EmptyChunks(chunks[..|chunks| - 1]) + if chunks[|chunks| - 1] == "" then 1 else 0
  }

  /** The empty chunks of a transfer that did not end it. */
  function Stalls(t: Transfer): nat {
    EmptyChunks(if t.closed && t.chunks != [] then t.chunks[..|t.chunks| - 1] else t.chunks)
  }

  /** Reads made for a transfer: one for each chunk, and the one under way. */
  function ReadsFor(t: Transfer): nat {
    |t.chunks| + if t.closed then 0 else 1
  }

  /** A read for each byte, at least one, and one more for each stall. */
  function Allowed(t: Transfer, blobs: nat -> seq<Byte>): nat {
    (if blobs(t.digest) == [] then 1 else |blobs(t.digest)|) + Stalls(t)
  }

  function Reads(asked: seq<Call>): nat {
    if asked == [] then 0 else Reads(asked[..|asked| - 1]) + if asked[|asked| - 1].BlobRead? then 1 else 0
  }

  function Sum(transfers: seq<Transfer>, f: Transfer -> nat): nat {
    if transfers == [] then 0 else Sum(transfers[..|transfers| - 1], f) + f(transfers[|transfers| - 1])
  }

  /** An open transfer has fewer bytes than its blob, unless it has just begun, and wastes no other read. */
  ghost predicate Thrifty(t: Transfer, blobs: nat -> seq<Byte>) {
    && ReadsFor(t) <= Allowed(t, blobs)
    && (!t.closed ==> |t.chunks| <= Written(t.chunks) + EmptyChunks(t.chunks))
    && (!t.closed && t.chunks != [] ==> Written(t.chunks) < |blobs(t.digest)|)
  }

  lemma ThriftyAppend(t: Transfer, hex: string, eof: bool, blobs: nat -> seq<Byte>)
    requires Thrifty(t, blobs) && !t.closed && IsChunkOf(hex, eof, blobs(t.digest), Written(t.chunks))
    ensures Thrifty(Transfer(t.digest, t.chunks + [hex], eof), blobs)
  {
    assert (t.chunks + [hex])[..|t.chunks|] == t.chunks;
    assert hex != "" ==> |hex| >= 2;
  }

  ghost predicate AllThrifty(transfers: seq<Transfer>, blobs: nat -> seq<Byte>) {
    forall i :: 0 <= i < |transfers| ==> Thrifty(transfers[i], blobs)
  }

  lemma ThriftyAppended(transfers: seq<Transfer>, hex: string, eof: bool, blobs: nat -> seq<Byte>)
    requires AllThrifty(transfers, blobs) && transfers != [] && !transfers[|transfers| - 1].closed
    requires var t := transfers[|transfers| - 1]; IsChunkOf(hex, eof, blobs(t.digest), Written(t.chunks))
    ensures AllThrifty(Append(transfers, hex, eof), blobs)
  {
    ThriftyAppend(transfers[|transfers| - 1], hex, eof, blobs);
  }

  lemma ThriftyStepAt(s: State, r: Reply, blobs: nat -> seq<Byte>, i: nat)
    requires AllThrifty(s.transfers, blobs) && i < |Step(s, r).transfers|
    requires s.phase.AtPut? ==> AllThrifty(Append(s.transfers, s.phase.hex, s.phase.eof), blobs)
    ensures Thrifty(Step(s, r).transfers[i], blobs)
  {
    if s.phase.AtPut? {
      TransfersAfterPut(s, r, i);
    } else {
      TransfersOtherwise(s, r, i);
    }
  }

  lemma ThriftyStep(s: State, r: Reply, blobs: nat -> seq<Byte>)
    requires Inv(s) && AllFaithful(s, blobs) && AllThrifty(s.transfers, blobs)
    ensures AllThrifty(Step(s, r).transfers, blobs)
  {
    if s.phase.AtPut? {
      assert Transferring(s, s.phase.missing, s.phase.offset);
      ThriftyAppended(s.transfers, s.phase.hex, s.phase.eof, blobs);
    }
    forall i | 0 <= i < |Step(s, r).transfers| ensures Thrifty(Step(s, r).transfers[i], blobs) {
      ThriftyStepAt(s, r, blobs, i);
    }
  }

  lemma {:induction false} RunThrifty(replies: seq<Reply>, blobs: nat -> seq<Byte>)
    requires Served(replies, blobs)
    ensures AllThrifty(Run(replies).transfers, blobs)
  {
    if replies != [] {
      var front := replies[..|replies| - 1];
      assert forall k :: 0 <= k < |front| ==> front[..k] == replies[..k] && front[k] == replies[k];
      RunThrifty(front, blobs);
      RunInv(front);
      BlobsArriveWhole(front, blobs);
      ThriftyStep(Run(front), replies[|replies| - 1], blobs);
    }
  }

  lemma ReadsSnoc(asked: seq<Call>, call: Call)
    ensures Reads(asked + [call]) == Reads(asked) + if call.BlobRead? then 1 else 0
  {
    assert (asked + [call])[..|asked|] == asked;
  }

  lemma SumSnoc(transfers: seq<Transfer>, t: Transfer, f: Transfer -> nat)
    ensures Sum(transfers + [t], f) == Sum(transfers, f) + f(t)
  {
    assert (transfers + [t])[..|transfers|] == transfers;
  }

  lemma SumAppend(transfers: seq<Transfer>, hex: string, closed: bool)
    requires transfers != [] && !transfers[|transfers| - 1].closed
    ensures Sum(Append(transfers, hex, closed), ReadsFor) == Sum(transfers, ReadsFor) + if closed then 0 else 1
  {
    AppendLast(transfers, hex, closed);
  }

  ghost predicate Counted(s: State) {
    Reads(s.asked) == Sum(s.transfers, ReadsFor)
  }

  lemma CountedAsk(s: State, p: Phase, call: Call)
    requires Counted(s) && !call.BlobRead?
    ensures Counted(Ask(s, p, call))
  {
    ReadsSnoc(s.asked, call);
  }

  lemma CountedNextBlob(s: State, c: Checkpoint, missing: seq<nat>)
    requires Counted(s)
    ensures Counted(NextBlob(s, c, missing))
  {
    if missing == [] {
      CountedAsk(s, AtStage(c), Stage(c.id));
    } else {
      ReadsSnoc(s.asked, BlobRead(missing[0], 0));
      SumSnoc(s.transfers, Transfer(missing[0], [], false), ReadsFor);
    }
  }

  lemma CountedPut(s: State, r: Reply)
    requires Counted(s) && s.phase.AtPut? && Transferring(s, s.phase.missing, s.phase.offset)
    ensures Counted(Step(s, r))
  {
    var p := s.phase;
    if !r.PutDone? || (p.eof && !r.complete) {
      CountedAsk(s, AtTargetAbort(p.c), Abort(Target, p.c.id));
    } else {
      SumAppend(s.transfers, p.hex, p.eof);
      if p.eof {
        CountedNextBlob(Acked(s).(transfers := Append(s.transfers, p.hex, true)), p.c, p.missing[1..]);
      } else {
        ReadsSnoc(s.asked, BlobRead(p.missing[0], p.offset + |p.hex| / 2));
      }
    }
  }

  /** Elsewhere no transfer changes and at most one call is asked for, which reads no blob. */
  lemma AsksNoRead(s: State, r: Reply)
    requires !s.phase.AtPut? && !(s.phase.AtBlobHas? && r.Missing?)
    ensures var s' := Step(s, r);
            && s'.transfers == s.transfers
            && (s'.asked == s.asked || exists call: Call :: !call.BlobRead? && s'.asked == s.asked + [call])
  {
    var s' := Step(s, r);
    if s'.asked != s.asked {
      assert s'.asked == s.asked + [s'.asked[|s.asked|]];
    }
  }

  lemma CountedStep(s: State, r: Reply)
    requires Inv(s) && Counted(s)
    ensures Counted(Step(s, r))
  {
    if s.phase.AtPut? {
      assert Transferring(s, s.phase.missing, s.phase.offset);
      CountedPut(s, r);
    } else if s.phase.AtBlobHas? && r.Missing? {
      CountedNextBlob(Acked(s).(missing := r.digests), s.phase.c, r.digests);
    } else {
      CountedElsewhere(s, r);
    }
  }

  lemma CountedElsewhere(s: State, r: Reply)
    requires Counted(s) && !s.phase.AtPut? && !(s.phase.AtBlobHas? && r.Missing?)
    ensures Counted(Step(s, r))
  {
    AsksNoRead(s, r);
    if Step(s, r).asked != s.asked {
      var call: Call :| !call.BlobRead? && Step(s, r).asked == s.asked + [call];
      ReadsSnoc(s.asked, call);
    }
  }

  lemma {:induction false} CountReads(replies: seq<Reply>)
    ensures Counted(Run(replies))
  {
    if replies == [] {
      assert [Hello][..0] == [];
      assert Reads([Hello]) == Reads([]);
    } else {
      CountReads(replies[..|replies| - 1]);
      RunInv(replies[..|replies| - 1]);
      CountedStep(Run(replies[..|replies| - 1]), replies[|replies| - 1]);
    }
  }

  lemma {:induction false} SumMonotone(transfers: seq<Transfer>, blobs: nat -> seq<Byte>)
    requires AllThrifty(transfers, blobs)
    ensures Sum(transfers, ReadsFor) <= Sum(transfers, t => Allowed(t, blobs))
  {
    if transfers != [] {
      SumMonotone(transfers[..|transfers| - 1], blobs);
      assert Thrifty(transfers[|transfers| - 1], blobs);
    }
  }

  /**
    Transfers end: against a source that serves the blobs, over any run, a blob is read at most
    once for each of its bytes (once if it has none) and once more for each empty chunk that did
    not end it; and no other blob reads are asked for.
   */
  lemma ReadsAreBounded(replies: seq<Reply>, blobs: nat -> seq<Byte>)
    requires Served(replies, blobs)
    ensures var s := Run(replies);
            && (forall t :: t in s.transfers ==> ReadsFor(t) <= Allowed(t, blobs))
            && Reads(s.asked) <= Sum(s.transfers, t => Allowed(t, blobs))
  {
    RunThrifty(replies, blobs);
    CountReads(replies);
    SumMonotone(Run(replies).transfers, blobs);
  }

  lemma ServedSnoc(replies: seq<Reply>, r: Reply, blobs: nat -> seq<Byte>)
    requires Served(replies, blobs) && Serves(Run(replies), r, blobs)
    ensures Served(replies + [r], blobs) && Run(replies + [r]) == Step(Run(replies), r)
  {
    var more := replies + [r];
    assert more[..|replies|] == replies;
    forall i | 0 <= i < |more| ensures Serves(Run(more[..i]), more[i], blobs) {
      if i < |replies| {
        assert more[..i] == replies[..i];
      }
    }
  }

  /** At a read that does not reach the end of its blob. */
  ghost predicate ShortOfEnd(s: State, blobs: nat -> seq<Byte>) {
    s.phase.AtRead? && s.phase.missing != [] && s.phase.offset < |blobs(s.phase.missing[0])|
  }

  /** One empty chunk, read and put, leads back to the same read. */
  lemma EmptyRound(s: State, blobs: nat -> seq<Byte>)
    requires ShortOfEnd(s, blobs)
    ensures var s' := Step(s, Chunk("", false));
            && Serves(s, Chunk("", false), blobs) && Serves(s', PutDone(false), blobs)
            && Step(s', PutDone(false)).phase == s.phase
  {
  }

  /**
    Empty chunks do prolong a transfer: from any read short of the blob's end such a source can
    answer any number of reads, without an error, and the same read is asked for again.
   */
  lemma {:induction false} EmptyChunksStall(replies: seq<Reply>, n: nat, blobs: nat -> seq<Byte>)
    returns (more: seq<Reply>)
    requires Served(replies, blobs) && ShortOfEnd(Run(replies), blobs)
    ensures |more| == 2 * n && Error !in more && Timeout !in more
    ensures Served(replies + more, blobs) && Run(replies + more).phase == Run(replies).phase
  {
    if n == 0 {
      more := [];
      assert replies + more == replies;
    } else {
      var front := EmptyChunksStall(replies, n - 1, blobs);
      more := front + [Chunk("", false)] + [PutDone(false)];
      assert replies + more == (replies + front) + [Chunk("", false)] + [PutDone(false)];
      StallOnce(replies + front, blobs);
    }
  }

  lemma StallOnce(replies: seq<Reply>, blobs: nat -> seq<Byte>)
    requires Served(replies, blobs) && ShortOfEnd(Run(replies), blobs)
    ensures var more := replies + [Chunk("", false)] + [PutDone(false)];
            Served(more, blobs) && Run(more).phase == Run(replies).phase
  {
    EmptyRound(Run(replies), blobs);
    ServedSnoc(replies, Chunk("", false), blobs);
    ServedSnoc(replies + [Chunk("", false)], PutDone(false), blobs);
  }
}
