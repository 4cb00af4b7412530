# Verification of Homie's protocols, codecs and bounded algorithms

This project models, in Dafny 4.11, the parts of Homie whose correctness is not visible in any one function, and proves
what they keep over whole runs. `dafny verify dfyconfig.toml` checks all of it. The file names below are without `.dfy`.

- **Events.** A bus numbers events under its lock, archives them in a ring bounded by count and bytes, and pushes them to
  bounded per-subscriber queues after releasing the lock (`Queue`, `Bus`, `Delivery`); a client resumes
  from the last number it saw (`Resume`); a long poll subscribes, checks and re-reads (`Wait`).
- **Attach.** One pump per session serves the sinks that come and go, and retires itself (`Hub`); the sink that
  started it sees a snapshot and then diffs (`View`).
- **Requests and handoff.** Correlation of requests with responses across reconnects (`Requests`), and the move of a
  session from one node to another with a failure possible at every call (`Handoff`).
- **Codecs.** Big-endian integers, packed colours, run-length rows, screen updates, data-channel frames, and both
  readers of newline-delimited messages (`BigEndian`, `Grid`, `Updates`, `Frames`, `Lines`, `Reader`).
- **Sequential algorithms.** The text editor and the soft-wrapped composer (`Utf8`, `Editor`, `Layout`, `Composer`),
  login-shell quoting and agent environments (`Shell`, `Spawn`), the bounded folder listing (`Listing`), the capped
  breadth-first scan (`Scan`), bounded prompts (`Prompt`).

Concurrent parts are step systems: a function from a state and an action to the next state, one action per lock section,
channel operation or await, and theorems over every sequence of enabled actions. Objects the source updates in place are
classes whose methods are proved against those same functions.

## What the code does not keep

Where a property that the code or its comments suggest is false of the code, the code is modelled as it is, a lemma gives
a run or an input that shows it, and another says exactly when the property holds.

- A hole marker can itself be evicted, with number 0, and then the next marker's range is wrong
  (`EvictedMarkerGarblesRange`, `MarkerEnclosesItsBurst`).
- Overlapping publishers may hand events over out of order (`OverlappingPublishersReorder`, `OrderedExactlyWhenInTurn`).
- An event missed before the first one received is missed for good, and so is what leaves the ring during a disconnect
  (`NothingToResumeFrom`, `RingLosesEvent`, `FirstConnectOwesNothing`, `ReconnectLosesWhatLeftTheRing`,
  `MissedForGood`).
- `events.wait` can time out with a matching event in its queue, when the event arrives between a re-read and a deadline
  check that comes late (`HandedBeforeDeadlineMayTimeOut`, `TimesOutExactlyWhenCheckedLate`).
- A failed thread spawn or a poisoned registry lock leaves `pump_running` set, and the session is never served again
  (`FailuresStrandSinks`, `OnePumpPerAttachedSession`, `LostExactlyWhen`, `LostStaysLost`).
- After a session's restart the pump does not send the first modes it observes (`RestartLeavesModesStale`,
  `ModesAfterRestart`, `ModesStaleExactlyWhen`), although its comment speaks of re-seeding.
- Dropping a connection only asks its tasks to stop; if a channel closes after the pending map was taken, a request sent
  in between is left behind (`LateCloseDelaysRequest`, `LeftBehindExactlyWhen`). Without a timeout or a response it waits
  until the next attempt to connect has ended (`AnsweredByNextTeardown`).
- Empty chunks prolong a blob transfer, each by one read, until the timeout of the whole handoff (`EmptyChunksStall`,
  `TransferAdvances`, `ReadsAreBounded`).
- Frames decoded before corrupt bytes by the same append are lost (`FramesBeforeCorruptionAreLost`, `FeedIsDrain`), and
  the limit on a control line depends on where chunks end (`OverlongLineDependsOnChunks`, `FeedExactly`).
- A screen update's cursor is clamped, so it round-trips only within 16 bits (`UpdateRoundTrip`).
- Vertical motion comes back to where it started only if every line on the way ends hard or is longer than the column
  (`ComesBackExactlyWhenKept`); a short soft line is a trap for moving up (`TrapReached`, `ShortSoftLineTrapsCaret`).
- A vertical move before the next render uses the layout of the earlier text and may panic (`StaleLayoutPanics`,
  `CurrentLayoutNeverPanics`; `MoveVertically` says exactly when).
- `insert` is documented to say whether the text changed; it also says so when a selection is replaced by equal text
  (`EqualTextIsReported`, `InsertReportsExactly`).

## Assumptions

- A lock section, a channel operation and an atomic access are each one step; sequence numbers, ids and offsets do not
  reach the end of their 64 bits.
- JSON decodes what it encoded. Which values do not encode is left open in `Queue`, `Bus` and `Delivery`; `Resume` takes
  it that every payload encodes, as every serde_json value does. Encoded sizes enter only in `Listing`.
- `grid_update_if_changed` gives the difference from its signature and advances the signature.
- Graphemes and words start at increasing character boundaries; `DownAndBackUp` and `ComesBackExactlyWhenKept` also
  take it that cutting a text at a grapheme start leaves the graphemes before it as they are (`PrefixStable`). Line
  wrapping answers offsets inside the paragraph; `CharLines`, which the results on vertical motion take, holds when they
  are character boundaries (`Wrap`).
- `BlobsArriveWhole`, `ChunksAreContiguous`, `TransferAdvances`, `ReadsAreBounded` and `EmptyChunksStall` take a source
  that serves the bytes at the offset asked for.
- Paths have at most 4096 bytes (`ListingFits`).
- Once the client's connection is dropped nothing of it arrives any more, not even what was in flight (`Resume`). A
  subscriber queue has room for at least one entry, which the bus sees to.

## Model

| member | source | states |
|---|---|---|
| `SubscriberQueues.FilterAdmits` | homie/crates/homie-engine/src/events.rs:53-82 | a filter admits the drop marker always, and any other event if and only if each list that was given and is not empty has it; an empty list restricts nothing |
| `SubscriberQueues.SubscriberQueue.constructor` | homie/crates/homie-engine/src/events.rs:273-284 | a new queue is empty, open, with nothing dropped |
| `SubscriberQueues.SubscriberQueue.Push` | homie/crates/homie-engine/src/events.rs:131-161 | a closed queue or an event the filter refuses changes nothing; a full queue loses its oldest entry, whose number joins the hole; else an owed marker goes in ahead of the event |
| `SubscriberQueues.SubscriberQueue.TryRecv` | homie/crates/homie-engine/src/events.rs:342-344 | takes the oldest entry, if any |
| `SubscriberQueues.SubscriberQueue.Close` | homie/crates/homie-engine/src/events.rs:348-349 | closes and changes nothing else |
| `SubscriberQueues.QueueConservation` | homie/crates/homie-engine/src/events.rs:131-161 | over every run of pushes, pops and closes: what entered (events and markers, in order) is what left followed by what is queued; with capacity at least 1 at most capacity + 1 are queued; the markers' counts plus the running counter are all evictions; each marker names first and last entry of exactly its burst |
| `SubscriberQueues.AdmittedEnter` | homie/crates/homie-engine/src/events.rs:131-161 | over every run: what enters a queue, markers aside, is every event pushed before it was closed that its filter admits, once and in order, and no other |
| `SubscriberQueues.EvictedInOrder` | homie/crates/homie-engine/src/events.rs:136-158 | with in-order pushes the evicted entries followed by the queued ones keep their order |
| `SubscriberQueues.MarkerEnclosesItsBurst` | homie/crates/homie-engine/src/events.rs:136-157 | with in-order pushes a marker's range encloses every event evicted since the previous marker if and only if the last entry evicted was an event, not an earlier marker (whose number is 0), or no event was evicted at all |
| `SubscriberQueues.EvictedMarkerGarblesRange` | homie/crates/homie-engine/src/events.rs:138-153 | a run with in-order pushes in which a marker is evicted and the next marker's range misses an evicted event |
| `EventBuses.RetainedIsSuffix` | homie/crates/homie-engine/src/events.rs:239-247 | the ring is a suffix of the archived log that respects both caps |
| `EventBuses.RetainedIsLongest` | homie/crates/homie-engine/src/events.rs:239-247 | no longer suffix respects both caps |
| `EventBuses.RingHoldsAllThatFit` | homie/crates/homie-engine/src/events.rs:95-97 | in terms of what was published: the ring holds the newest encodable events, as many as fit the count and whose names, payloads and 16 bytes each fit the byte cap, and no fewer |
| `EventBuses.RetainedIncrementally` | homie/crates/homie-engine/src/events.rs:227-248 | trimming event by event equals trimming the whole log once, also for an event larger than the byte cap |
| `EventBuses.RoomyPushesEvictNothing` | homie/crates/homie-engine/src/events.rs:131-161 | a burst no longer than the capacity is queued whole: the admitted events, in order, no marker |
| `EventBuses.DefaultReplayNeverEvicts` | homie/crates/homie-engine/src/events.rs:193-213 | with the default subscriber capacity a full replay evicts nothing, whatever was published |
| `EventBuses.ArchiveMirrorsLog` | homie/crates/homie-engine/src/events.rs:229-238 | the archive holds exactly the encodable events, and decodes to them |
| `EventBuses.ReplayIsFilteredLog` | homie/crates/homie-engine/src/events.rs:286-291 | replay equals the part of the published log after sinceSeq, restricted to what the ring retains |
| `EventBuses.Replay` | homie/crates/homie-engine/src/events.rs:286-291 | the loop pushes exactly the ring's entries after sinceSeq, in order |
| `EventBuses.EventBus.WithCapacities` | homie/crates/homie-engine/src/events.rs:196-215 | an empty bus that satisfies the invariant; the subscriber capacity is the one asked for, else twice the ring, and at least 1 |
| `EventBuses.EventBus.Sequence` | homie/crates/homie-engine/src/events.rs:218-251 | under the lock: the event gets the next number, the ring stays exactly what the caps retain of the log and its byte count the exact sum (so it never underflows), the subscribers are snapshot |
| `EventBuses.EventBus.Publish` | homie/crates/homie-engine/src/events.rs:217-255 | a publish with nothing in between pushes the event to every registered queue once |
| `EventBuses.EventBus.Subscribe` | homie/crates/homie-engine/src/events.rs:272-300 | a fresh queue holding the replay is registered under a fresh id |
| `EventBuses.EventBus.Unsubscribe` | homie/crates/homie-engine/src/events.rs:350-352 | only that subscriber goes |
| `EventBuses.EventBus.CurrentSeq` | homie/crates/homie-engine/src/events.rs:302-304 | the number of events published so far |
| `Delivery.HandedExactlyOnce` | homie/crates/homie-engine/src/events.rs:217-300 | over every interleaving of split publishes, subscribes and unsubscribes: an event the ring held past the sinceSeq asked for when the subscription was made, or published before the subscription left the map, is handed to it once, by replay or by push, or is still to be pushed; never twice, and nothing else ever is |
| `Delivery.SubscribedWithReplay` | homie/crates/homie-engine/src/events.rs:272-300 | a subscribe registers a new subscription and, in the same step, queues for it exactly the retained events past the sinceSeq it names, or none if it names none |
| `Delivery.PublishedIsLogged` | homie/crates/homie-engine/src/events.rs:217-226 | every event published stands in the log under the next number, with the name, parameters and session it was published with |
| `Delivery.ReadsWhatWasHanded` | homie/crates/homie-engine/src/events.rs:342-344 | over every run: what the consumer of an open subscription that has not overflowed has read, followed by its queue, is exactly the admitted events handed to it, in order |
| `Delivery.OneEventRead` | homie/crates/homie-engine/src/events.rs:217-352 | a run through the whole life of a subscription, in which the event published is read |
| `Delivery.NoEvictionPassesAll` | homie/crates/homie-engine/src/events.rs:131-161 | an open queue that never overflows passes on exactly the admitted events it was handed, in order |
| `Delivery.OrderedExactlyWhenInTurn` | homie/crates/homie-engine/src/events.rs:250-254 | over every run: the events handed to a subscription rise, and are older than all still pending for it, if and only if every push to it was of the oldest event then pending; with nothing pending that is the order of all it was handed |
| `Delivery.SerialPublishersKeepOrder` | homie/crates/homie-engine/src/events.rs:217-255 | if no two publishes overlap every subscription is handed its events in increasing order |
| `Delivery.OverlappingPublishersReorder` | homie/crates/homie-engine/src/events.rs:250-254 | a run in which two overlapping publishes hand their events over in the opposite order |
| `Resume.GaplessResume` | homie/crates/homie-client/src/client.rs:197-244 | over any number of disconnects, while the ring covers each reconnect and no queue overflows: once one event was received, what was received is every later admitted event up to the last, once each, in order, and the rest is on its way |
| `Resume.ReceivedRising` | homie/crates/homie-client/src/client.rs:238-241 | whatever the ring or a queue of any capacity has lost, no event is received twice or out of order, none is received that was not published and admitted, and while no queue overflows nothing but events is received |
| `Resume.ReconnectLosesWhatLeftTheRing` | homie/crates/homie-client/src/client.rs:205-215 | once an event was received, a reconnect owes the client every admitted event after the last received if and only if none of those has left the ring and the rest fit the new queue |
| `Resume.LargeQueueFitsReplay` | homie/crates/homie-engine/src/events.rs:193-213 | any replay fits a queue with room for as many entries as the ring |
| `Resume.FirstConnectOwesNothing` | homie/crates/homie-client/src/client.rs:205-207 | before any event was received a connection replays nothing, so it owes the client all admitted events published so far if and only if there are none |
| `Resume.MissedForGood` | homie/crates/homie-client/src/client.rs:205-215 | over any number of reconnects: what a client without a connection has not received and a new connection would not carry, being published before any was received or gone from the ring, is never received later |
| `Resume.NothingToResumeFrom` | homie/crates/homie-client/src/client.rs:205-207 | a run in which an admitted event published before any was received is so missed |
| `Resume.RingLosesEvent` | homie/crates/homie-engine/src/events.rs:239-247 | a run in which an event leaves the ring during a disconnect and the next connection carries only the one after it |
| `Resume.PublishedIsLogged` | homie/crates/homie-engine/src/events.rs:217-226 | every event published stands in the log under the next number, as it was published |
| `EventsWait.NoLostWakeup` | homie/crates/homie-engine/src/control.rs:322-378 | over every run: a non-timeout answer satisfies a target; a timeout comes after the deadline, and never when the registry was read since every read satisfies a target, nor when an event handed over since found the waiter in recv or reaching it, even if the queue overflowed |
| `EventsWait.HandedEventAnswersInThreeSteps` | homie/crates/homie-engine/src/control.rs:358-376 | a waiter in recv with such an event answers without timing out in three steps of its own |
| `EventsWait.AnswersLastRead` | homie/crates/homie-engine/src/control.rs:322-378 | over every run the wait answers, timed out or not, with the record it read last, and finds nothing only if it never read one |
| `EventsWait.PastDeadlineEnds` | homie/crates/homie-engine/src/control.rs:345-378 | past the deadline at most four steps of its own end the wait, wherever it is |
| `EventsWait.TimesOutExactlyWhenCheckedLate` | homie/crates/homie-engine/src/control.rs:358-376 | from any reachable state with such an event unread and the waiter about to check its deadline, every continuation that answers times out if and only if that check comes after the deadline |
| `EventsWait.HandedBeforeDeadlineMayTimeOut` | homie/crates/homie-engine/src/control.rs:365-371 | a run in which an event handed over before the deadline, between a re-read and a late deadline check, is left in the queue and the wait times out |
| `AttachHubs.AttachHub.constructor` | homie/crates/homie-engine/src/attach.rs:52-55 | no sessions, sink numbers from 0 |
| `AttachHubs.AttachHub.NewSink` | homie/crates/homie-engine/src/attach.rs:96 | a sink number never given before |
| `AttachHubs.AttachHub.Register` | homie/crates/homie-engine/src/attach.rs:172-186 | the sink joins its session and a pump is to start exactly when none was running |
| `AttachHubs.AttachHub.Deregister` | homie/crates/homie-engine/src/attach.rs:199-204 | the sink leaves, its session's other sinks stay, and so do the pump flag and the other sessions |
| `AttachHubs.AttachHub.RetireIfIdle` | homie/crates/homie-engine/src/attach.rs:315-327 | the pump stops exactly when its session has no sink, and then the session goes |
| `AttachHubs.SinksAreThoseJoined` | homie/crates/homie-engine/src/attach.rs:172-204 | over every interleaving a session has exactly the sinks that registered with it and have not deregistered since |
| `AttachHubs.PumpRetiresExactlyWhenIdle` | homie/crates/homie-engine/src/attach.rs:315-327 | a pump's round ends it, and its session is forgotten, if and only if every sink that joined the session has left |
| `AttachHubs.OnePumpPerAttachedSession` | homie/crates/homie-engine/src/attach.rs:164-329 | over every interleaving no session has two pumps, and a session with a sink has one if and only if its pump was not lost to a failed spawn or a poisoned lock |
| `AttachHubs.LostExactlyWhen` | homie/crates/homie-engine/src/attach.rs:183-230 | a session's pump is lost if and only if an earlier step was a failed spawn for that session while it had no pump, or the exit of its own pump on a poisoned registry lock |
| `AttachHubs.FailuresStrandSinks` | homie/crates/homie-engine/src/attach.rs:183-230 | a run of each kind that leaves a sink without a pump |
| `AttachHubs.LostStaysLost` | homie/crates/homie-engine/src/attach.rs:178-186 | after such a loss no later action gives the session a pump again |
| `PumpViews.ShowDiff` | homie/crates/homie-engine/src/attach.rs:258-260 | showing a diff on the screen its signature stands for gives the screen it was taken from |
| `PumpViews.DiffIsLeast` | homie/crates/homie-engine/src/attach.rs:258-260 | a diff lists exactly the rows that changed, and is none if and only if nothing did |
| `PumpViews.ObservedIsLastDrawn` | homie/crates/homie-engine/src/attach.rs:250-283 | over every run what the pump observed is the screen and the modes the session had drawn last when it looked |
| `PumpViews.NoticesExactlyWhenReplaced` | homie/crates/homie-engine/src/attach.rs:233-245 | over every run the pump notices a replaced session between rounds, once for any number of replacements, and nothing else |
| `PumpViews.SnapshotPlusDiffs` | homie/crates/homie-engine/src/attach.rs:80-97 | for the sink whose registration starts the pump, while it is attached and no update fails to encode: after each completed round its view is the screen the pump last observed, across restarts of the session; its modes agree as well until a restart is noticed |
| `PumpViews.ModesAfterRestart` | homie/crates/homie-engine/src/attach.rs:233-283 | one observation: the first modes observed after a restart agree with the sink's if and only if it already shows them; later ones do if and only if it already shows them or they differ from the last observed |
| `PumpViews.ModesStaleExactlyWhen` | homie/crates/homie-engine/src/attach.rs:233-283 | over every run, while the sink is attached: its modes are stale if and only if the pump once observed, first after a restart, modes the sink did not show, and every observation since found the modes of the one before it, with no restart noticed in between |
| `PumpViews.RestartLeavesModesStale` | homie/crates/homie-engine/src/attach.rs:238-282 | a run after which the sink has the right screen and the wrong modes |
| `Requests.NoRequestStranded` | homie/crates/homie-client/src/client.rs:119-251 | if dropping a connection closes its channel before fail_pending runs: over every interleaving nothing sent on a connection past fail_pending stays pending, its sender has an outcome or is being given one, and a request not yet sent sees its send fail |
| `Requests.ResolvedAtMostOnce` | homie/crates/homie-client/src/client.rs:142-170 | a finished request keeps its outcome and the value in a request's channel is never replaced |
| `Requests.OnlyItsOwnAnswer` | homie/crates/homie-client/src/client.rs:229-237 | a request that ended with a response got one that bore its own id, and ids are never reused |
| `Requests.RoutedReachesRequest` | homie/crates/homie-client/src/client.rs:229-237 | a response that finds its request's entry reaches it: if the request has not ended otherwise it receives that result whenever it looks |
| `Requests.EndsExactlySo` | homie/crates/homie-client/src/client.rs:142-170 | a request ends with a response if and only if that response took its entry and the request then looked, timed out if and only if its timeout removed the entry, and disconnected in every other case |
| `Requests.CancelledExactlyWhen` | homie/crates/homie-client/src/client.rs:142-170 | a request is cancelled if and only if its future was dropped |
| `Requests.AnsweredRun` | homie/crates/homie-client/src/client.rs:119-237 | a run in which a request is sent, answered and ends with that response |
| `Requests.EveryRequestFinishes` | homie/crates/homie-client/src/client.rs:142-170 | if every earlier teardown closed its channel before fail_pending ran: while disconnected each unfinished request can take a step of its own, and each brings it nearer to its outcome, with or without a timeout |
| `Requests.LeftBehindExactlyWhen` | homie/crates/homie-client/src/client.rs:119-251 | whenever channels close: a request sent on a connection past fail_pending is still pending if and only if it was inserted after that fail_pending, sent before the channel closed, and no response, timeout or later fail_pending has taken its entry since |
| `Requests.AnsweredByNextTeardown` | homie/crates/homie-client/src/client.rs:820-825 | a request sent before a fail_pending is not pending after it: if it has not ended its answer is there, or is being given before fail_pending is left |
| `Requests.LateCloseDelaysRequest` | homie/crates/homie-client/src/connection.rs:109-113 | a run in which the channel closes only after fail_pending, a request without timeout is left behind, and the end of the next attempt to connect answers it |
| `Handoff.CommitOrder` | homie/crates/homie-client/src/node_client.rs:205-297 | over every run, with any failure at any call: before a commit is asked of either node the account was ready, the checkpoint with its session prepared and its manifest put, the target asked about exactly the files and the provider state of that checkpoint, each digest it then reported missing put to its end and answered complete, staging and provider resume acknowledged, and the lease given; and of the source only after the target acknowledged the same checkpoint and lease |
| `Handoff.SourceCommitIsFinal` | homie/crates/homie-client/src/node_client.rs:268-281 | once the source acknowledged its commit the run has succeeded |
| `Handoff.HandoffEnds` | homie/crates/homie-client/src/node_client.rs:283-296 | a run ends with both commits acknowledged and no abort, or with aborts on target then source as its last two calls and no source commit acknowledged, or refused before the operation with neither asked |
| `Handoff.FailureReachesBothAborts` | homie/crates/homie-client/src/node_client.rs:375-382 | from any phase of the operation an error or a timeout leads through the abort on the target and then on the source, whatever they answer |
| `Handoff.BlobsArriveWhole` | homie/crates/homie-client/src/node_client.rs:316-355 | against a source that serves each blob from the offset asked for, every transfer finished on the target joins up to exactly that blob |
| `Handoff.ChunksAreContiguous` | homie/crates/homie-client/src/node_client.rs:319-343 | each chunk is put at the number of bytes acknowledged before it |
| `Handoff.TransferAdvances` | homie/crates/homie-client/src/node_client.rs:316-355 | against such a source a chunk before the last brings the offset nearer to the blob's end if and only if it is not empty |
| `Handoff.ReadsAreBounded` | homie/crates/homie-client/src/node_client.rs:316-355 | over every run against such a source a blob is read at most once for each of its bytes, once if it has none, and once more for each empty chunk that did not end it; these are all the reads asked for |
| `Handoff.EmptyChunksStall` | homie/crates/homie-client/src/node_client.rs:319-343 | from any read short of a blob's end such a source can answer any number of reads with empty chunks and the same read is asked for again |
| `Handoff.HexConcat` | homie/crates/homie-client/src/node_client.rs:330-337 | hex of joined bytes is the joined hex, two digits a byte |
| `BigEndian.MostSignificantFirst` | Sources/HomieProtocol/Frames.swift:165-191 | the first byte weighs most |
| `BigEndian.ValueOfBytes` | Sources/HomieProtocol/Frames.swift:165-191 | reading back the big-endian bytes of a value of the width gives the value |
| `BigEndian.BytesOfValue` | Sources/HomieProtocol/Frames.swift:165-191 | and writing the value read from bytes gives the bytes |
| `BigEndian.Read` | Sources/HomieProtocol/Frames.swift:176-191 | the accumulating loop reads the value of the bytes at the offset |
| `Grid.UnpackPacked` | Sources/HomieProtocol/Grid.swift:19-37 | unpack inverts packed for every colour |
| `Grid.PackedLayout` | Sources/HomieProtocol/Grid.swift:19-37 | the top byte of a packed colour tells its kind, the rest holds it |
| `Grid.RunLayout` | Sources/HomieProtocol/Grid.swift:127-134 | where the fields of a run stand on the wire |
| `Grid.ExpandRuns` | Sources/HomieProtocol/Grid.swift:119-134 | a row's runs expand to the row, each of 1 to 65535 cells |
| `Grid.FewestRuns` | Sources/HomieProtocol/Grid.swift:119-134 | no list of runs that expands to the row is shorter |
| `Grid.CountRun` | Sources/HomieProtocol/Grid.swift:120-126 | the inner loop finds the longest run a 16-bit count allows |
| `Grid.AppendRow` | Sources/HomieProtocol/Grid.swift:115-137 | appends the run count and the runs of the row |
| `Grid.RowRoundTrip` | Sources/HomieProtocol/Grid.swift:115-165 | reading a written row gives back its cells, of any length, and stops right after it |
| `Grid.ParseRunsConsumes` | Sources/HomieProtocol/Grid.swift:155-163 | reading n runs takes exactly 16 n bytes off the front, and fails exactly when there are fewer |
| `Grid.ShortestRowEncoding` | Sources/HomieProtocol/Grid.swift:115-137 | of all byte strings that read as the row, the written one is shortest |
| `Grid.ReadRun` | Sources/HomieProtocol/Grid.swift:156-161 | one run from the cursor |
| `Grid.ReadRow` | Sources/HomieProtocol/Grid.swift:140-165 | on any bytes, the cursor-based reader never passes the end and agrees with the grammar: same cells, same rest, nil in the same cases |
| `GridUpdates.UpdateRoundTrip` | Sources/HomieProtocol/Grid.swift:187-233 | decoding an encoded update, whatever follows it, gives the update with its cursor clamped; so the very update if and only if the cursor fits in 16 bits |
| `GridUpdates.ClampIsNearest` | Sources/HomieProtocol/Grid.swift:190-191 | a clamped cursor is the nearest value of 16 bits |
| `GridUpdates.BlockRoundTrip` | Sources/HomieProtocol/Grid.swift:168-184 | decodeRows inverts encodeRows |
| `GridUpdates.Encoded` | Sources/HomieProtocol/Grid.swift:188-204 | the appending loop writes the layout |
| `GridUpdates.Decoded` | Sources/HomieProtocol/Grid.swift:206-233 | on any bytes, the cursor-based decoder agrees with the grammar |
| `GridUpdates.ReadChangedRows` | Sources/HomieProtocol/Grid.swift:223-229 | the row loop reads the counted rows or fails |
| `GridUpdates.EncodeRows` | Sources/HomieProtocol/Grid.swift:168-172 | the rows one after the other |
| `GridUpdates.DecodeRows` | Sources/HomieProtocol/Grid.swift:175-184 | the loop reads the rows asked for or fails |
| `Frames.FrameCodec.Append` | Sources/HomieProtocol/Frames.swift:142-160 | takes every complete frame off the buffer in order; on a corrupt header it fails, keeps the corrupt bytes, and gives up the frames taken in the same call |
| `Frames.AppendInTwoChunks` | Sources/HomieProtocol/Frames.swift:142-160 | one append of a + b yields what a and then b yield, and fails exactly when one of them does |
| `Frames.FeedIsDrain` | Sources/HomieProtocol/Frames.swift:142-160 | any chunking fails if the whole does and gives its frames less those the failing append had taken, so the same frames if and only if it had taken none; without a failure also the same residue |
| `Frames.AnySplitRecoversFrames` | Sources/HomieProtocol/Frames.swift:134-160 | any split of the encodings of frames within the limit gives back exactly those frames and an empty residue |
| `Frames.EncodedFrameReads` | Sources/HomieProtocol/Frames.swift:134-157 | an encoded frame is read back if and only if its payload is within the limit, else the stream is corrupt |
| `Frames.FrameLayout` | Sources/HomieProtocol/Frames.swift:134-140 | a frame on the wire is its type, the length of its payload in four bytes, and the payload |
| `Frames.CorruptStays` | Sources/HomieProtocol/Frames.swift:145-153 | after a failure every later append fails, without a frame |
| `Frames.FramesBeforeCorruptionAreLost` | Sources/HomieProtocol/Frames.swift:144-159 | before a failure chunking does matter: the same bytes deliver a frame or lose it |
| `Frames.OffsetPayloadsRoundTrip` | Sources/HomieProtocol/Frames.swift:28-113 | output and replay payloads give back their 64-bit offset and bytes |
| `Frames.ResizeAndModesRoundTrip` | Sources/HomieProtocol/Frames.swift:39-108 | resize and modes payloads give back their fields |
| `Frames.ScrollRoundTrip` | Sources/HomieProtocol/Frames.swift:65-123 | scroll payloads give back their fields |
| `Lines.SplitJoins` | Sources/HomieProtocol/ControlMessage.swift:107-109 | the lines of a stream, each followed by a newline, and its tail make up the stream, and none of them holds a newline |
| `Lines.SplitConcat` | Sources/HomieProtocol/ControlMessage.swift:107-109 | cutting a stream anywhere splits its lines in two, the open one continued |
| `Lines.NDJSONBuffer.Append` | Sources/HomieProtocol/ControlMessage.swift:101-114 | appends, fails if the buffer is over the limit without a newline, else takes every complete line; an empty one is skipped, one that does not decode is fatal and costs the messages of the same call |
| `Lines.FeedExactly` | Sources/HomieProtocol/ControlMessage.swift:101-114 | any chunking fails if and only if a non-empty line of the stream does not decode or a chunk without a newline leaves the open line over the limit; otherwise its messages are those of the stream's non-empty lines |
| `Lines.FeedRefinesSplit` | Sources/HomieProtocol/ControlMessage.swift:101-114 | so while lines are within the limit and decode, any chunking gives the messages of the non-empty lines of the stream |
| `Lines.OverlongLineDependsOnChunks` | Sources/HomieProtocol/ControlMessage.swift:103-105 | an over-long line is accepted or refused depending on where the chunks end |
| `LineReaders.FillBuf` | homie/crates/homie-client/src/connection.rs:39-47 | what is left of the current chunk, else the next one |
| `LineReaders.TakeChunk` | homie/crates/homie-client/src/connection.rs:49-61 | takes up to the newline, refuses before the line would pass the limit |
| `LineReaders.ReadLine` | homie/crates/homie-client/src/connection.rs:36-62 | on any chunks: the first line, or the failure, if and only if it is over the limit or the stream ends, and the line buffer never exceeds the limit |
| `LineReaders.Serve` | homie/crates/homie-client/src/connection.rs:36-78 | messages and failure depend on the bytes alone, not on the chunks |
| `LineReaders.ReadAllRefinesSplit` | homie/crates/homie-client/src/connection.rs:36-78 | it routes the non-blank lines before the first that is over-long or does not decode, and fails with that line's fault |
| `LineReaders.LineIsRoutedUnlessBlank` | homie/crates/homie-client/src/connection.rs:69-78 | a line within the limit is passed over if and only if no byte of it is other than ASCII whitespace; else it is routed or is fatal |
| `Utf8.EncodeScalarReadsBack` | homie/crates/homie-app/src/query_editor.rs:236-244 | the bytes of a scalar hold its bits as section 3 of RFC 3629 lays them out, in the least number of bytes |
| `Utf8.SpliceValid` | homie/crates/homie-app/src/query_editor.rs:123-131 | replacing between character boundaries by a string gives a string, with boundaries at both ends of it |
| `Utf8.ValidSplit` | homie/crates/homie-app/src/review_prompt.rs:342-348 | cutting at a character boundary gives two strings |
| `Utf8.FloorIsLast` | homie/crates/homie-app/src/query_editor.rs:236-244 | the floor of an offset is the last character boundary at or before it |
| `Utf8.FloorIsNear` | homie/crates/homie-app/src/review_prompt.rs:342-348 | flooring loses at most three bytes |
| `Utf8.FloorBoundary` | homie/crates/homie-app/src/query_editor.rs:238-244 | the downward loop finds the floor |
| `QueryEditors.MotionTargets` | homie/crates/homie-app/src/query_editor.rs:246-272 | for any segmentation into increasing boundaries a motion's target is a character boundary on its own side of the caret |
| `QueryEditors.CharacterMotionIsNearest` | homie/crates/homie-app/src/query_editor.rs:246-272 | a character motion stops at the nearest grapheme start on its side |
| `QueryEditors.WordMotionIsNearest` | homie/crates/homie-app/src/query_editor.rs:246-272 | a word motion stops at the near or far end of the nearest piece that is a word, past separators only |
| `QueryEditors.MoveLeftCollapsesOrExtends` | homie/crates/homie-app/src/query_editor.rs:169-185 | a move left keeps the text, and the anchor if it extends; else nothing stays selected, and over a selection a move by character goes to its least end, another one no further right |
| `QueryEditors.MoveRightCollapsesOrExtends` | homie/crates/homie-app/src/query_editor.rs:187-203 | the same to the right |
| `QueryEditors.EveryRunIsOk` | homie/crates/homie-app/src/query_editor.rs:92-272 | over any sequence of edits and any offsets the text stays UTF-8 with cursor and anchor in range on character boundaries |
| `QueryEditors.TextStaysClean` | homie/crates/homie-app/src/query_editor.rs:103-132 | over any sequence of edits the text of a single-line field holds no ASCII control character, that of a multi-line one no other than newlines |
| `QueryEditors.PrintableIs` | homie/crates/homie-app/src/query_editor.rs:107-120 | what insert drops is exactly the control characters, newlines excepted when several lines are allowed |
| `QueryEditors.DeleteBackwardIsSelectAndDelete` | homie/crates/homie-app/src/query_editor.rs:135-150 | deleting by a motion is selecting by it and deleting the selection |
| `QueryEditors.DeleteForwardIsSelectAndDelete` | homie/crates/homie-app/src/query_editor.rs:153-164 | the same forwards |
| `QueryEditors.DeleteToIsSelectAndDelete` | homie/crates/homie-app/src/query_editor.rs:209-233 | the same to an offset |
| `QueryEditors.DeletionsAgree` | homie/crates/homie-app/src/query_editor.rs:135-233 | over a selection every deletion is its replacement by nothing |
| `QueryEditors.SelectionIsReplaced` | homie/crates/homie-app/src/query_editor.rs:123-132 | an insertion stands between what was before the selection's lesser end and after its greater one, the caret after it |
| `QueryEditors.InsertReportsExactly` | homie/crates/homie-app/src/query_editor.rs:103-132 | what insert reports is whether the text changed, if and only if it did not replace a selection by equal text |
| `QueryEditors.EqualTextIsReported` | homie/crates/homie-app/src/query_editor.rs:103-132 | typing a over a selected a is reported as a change |
| `QueryEditors.QueryEditor.Insert` | homie/crates/homie-app/src/query_editor.rs:107-132 | one splice of the selection by the printable text, the caret after it; reports a change when there is printable text or a selection; false means nothing changed |
| `QueryEditors.QueryEditor.DeleteSelection` | homie/crates/homie-app/src/query_editor.rs:136-141 | the selection goes, the caret collapses to its near edge |
| `QueryEditors.QueryEditor.DeleteBackward` | homie/crates/homie-app/src/query_editor.rs:135-150 | one splice, of the selection or back to the motion's target; the result says whether the text changed |
| `QueryEditors.QueryEditor.DeleteForward` | homie/crates/homie-app/src/query_editor.rs:153-164 | one splice, of the selection or up to the motion's target; the result says whether the text changed |
| `QueryEditors.QueryEditor.MoveLeft` | homie/crates/homie-app/src/query_editor.rs:169-185 | moves or extends; a selection collapses at its near edge first |
| `QueryEditors.QueryEditor.MoveRight` | homie/crates/homie-app/src/query_editor.rs:187-203 | moves or extends; a selection collapses at its far edge first |
| `QueryEditors.QueryEditor.MoveTo` | homie/crates/homie-app/src/query_editor.rs:209-214 | the caret goes to the last boundary at or before the offset |
| `QueryEditors.QueryEditor.DeleteTo` | homie/crates/homie-app/src/query_editor.rs:218-233 | one splice, of the selection or between the caret and the floored offset |
| `QueryEditors.QueryEditor.SelectAll` | homie/crates/homie-app/src/query_editor.rs:98-101 | the whole text is selected |
| `QueryEditors.QueryEditor.Clear` | homie/crates/homie-app/src/query_editor.rs:92-96 | nothing is left |
| `ComposerLayout.WrapParagraph` | homie/crates/homie-app/src/composer.rs:294-306 | the inner loop covers the paragraph up to its last cut with non-empty soft lines, which end exactly at the offsets that are past the start and all offsets before them |
| `ComposerLayout.Wrap` | homie/crates/homie-app/src/composer.rs:283-322 | for any wrap offsets inside the paragraphs the lines tile the text: they follow one another, hard ones end at a newline or the end of the text, soft ones within each paragraph end exactly at its offsets that advance; with offsets at character boundaries so are the ends of all lines |
| `ComposerLayout.RejoinRebuilds` | homie/crates/homie-app/src/composer.rs:283-322 | rejoining the lines of such a layout, nothing at soft breaks and a newline at hard ones, gives back the text |
| `Composers.CaretLineIs` | homie/crates/homie-app/src/composer.rs:149-161 | the caret shows on the last line that starts at or before it |
| `Composers.ColumnIsBoundary` | homie/crates/homie-app/src/composer.rs:329-334 | a column's offset is a character boundary of its line, and the line's end if and only if the line is no longer than the column |
| `Composers.LandsExactlyWhenKept` | homie/crates/homie-app/src/composer.rs:163-195 | moving to a column of a line leaves the caret on it if and only if the line ends hard or is longer than the column; else the caret shows at the head of the next line |
| `Composers.DownAndBackUp` | homie/crates/homie-app/src/composer.rs:163-195 | k moves down and k moves up that pass no edge return the caret to the grapheme boundary it started from, showing on each line in turn, if every line on the way keeps the column |
| `Composers.ComesBackExactlyWhenKept` | homie/crates/homie-app/src/composer.rs:163-195 | k moves down none of which starts on the last line, and k moves up, return the caret to where it started if and only if each of the k lines below ends hard or is longer than the column |
| `Composers.HardBreaksKeep` | homie/crates/homie-app/src/composer.rs:163-195 | with hard breaks only every line keeps every column, through lines of any length |
| `Composers.HardBreaksComeBack` | homie/crates/homie-app/src/composer.rs:163-195 | so with hard breaks only k moves down none of which starts on the last line, and k moves up, always return the caret |
| `Composers.ShortSoftLineTrapsCaret` | homie/crates/homie-app/src/composer.rs:163-195 | a caret moved onto a soft line it does not show on stays where it is however often it is moved up |
| `Composers.TrapReached` | homie/crates/homie-app/src/composer.rs:163-195 | a text, layout and caret from which one move up enters such a trap, for any segmentation |
| `Composers.LineDeleteStaysOnLine` | homie/crates/homie-app/src/composer.rs:99-125 | deleting by line removes exactly the part of the caret's visual line on that side, and no line break |
| `Composers.PromptComposer.Apply` | homie/crates/homie-app/src/composer.rs:99-125 | the edit itself, or its visual-line form when there is a layout; the remembered column goes |
| `Composers.CurrentLayoutNeverPanics` | homie/crates/homie-app/src/composer.rs:163-195 | on the layout of the text itself no vertical move panics |
| `Composers.StaleLayoutPanics` | homie/crates/homie-app/src/composer.rs:163-195 | select all, delete and move down before the next render: a layout of the earlier text on which the move panics |
| `Composers.PromptComposer.MoveVertically` | homie/crates/homie-app/src/composer.rs:163-195 | panics if and only if a span it slices is not one of the text, then leaving text and caret; else moves by the remembered column, parks at the buffer's edge past the first or last line, does nothing without a layout |
| `Composers.PromptComposer.Layout` | homie/crates/homie-app/src/composer.rs:200-213 | re-wraps unless text and width are those of the last wrap; either way the lines tile the text, at character boundaries if the breaks are at such |
| `ShellWords.LexShellQuote` | homie/crates/homie-engine/src/agent.rs:247-249 | reading the quotation of any string, by sections 2.2.1, 2.2.2 and 2.3 of the POSIX.1-2017 Shell Command Language, adds exactly that string to the word |
| `ShellWords.LexReturnToShell` | homie/crates/homie-engine/src/agent.rs:174-180 | what follows the arguments reads as ;, exec, the shell, -i, -l |
| `ShellWords.LoginCommandReadsBack` | homie/crates/homie-engine/src/agent.rs:174-180 | the command line reads back as exactly the arguments, each one quoted, then ;, exec, the shell, -i, -l |
| `AgentSpawn.ShouldScrub` | homie/crates/homie-engine/src/agent.rs:240-244 | whether some prefix matches |
| `AgentSpawn.HasPrefixMeans` | homie/crates/homie-engine/src/agent.rs:240-244 | a prefix matches if and only if it begins the name |
| `AgentSpawn.BuildEnv` | homie/crates/homie-engine/src/agent.rs:143-159 | the environment in full: inherited variables that are kept, in order, then the asserted colours, then the manifest's own |
| `AgentSpawn.EveryVariableAsPromised` | homie/crates/homie-engine/src/agent.rs:120-133 | every variable has the manifest's value, else the asserted colour, else is absent if scrubbed or NO_COLOR, else has its inherited value |
| `AgentSpawn.LoginShellIsShell` | homie/crates/homie-engine/src/agent.rs:167-173 | a non-empty SHELL of that environment is the shell returned to, /bin/sh if there is none |
| `AgentSpawn.FindShell` | homie/crates/homie-engine/src/agent.rs:167-173 | the last non-empty SHELL, else /bin/sh |
| `AgentSpawn.SpawnSpec` | homie/crates/homie-engine/src/agent.rs:134-204 | no launch without a binary; else that environment, and the login shell with its command line, or the binary looked up on PATH if it is bare, with its arguments |
| `AgentSpawn.RemoteSpawnSpec` | homie/crates/homie-engine/src/agent.rs:211-238 | the same environment with the argv untouched |
| `Directories.LessIsBytewise` | homie/crates/homie-engine/src/directories.rs:73 | names are ordered by their bytes: the first difference decides, and a prefix comes first |
| `Directories.SortSorts` | homie/crates/homie-engine/src/directories.rs:73 | sorting gives the names in ascending order, all of them |
| `Directories.TakeInsert` | homie/crates/homie-engine/src/directories.rs:44-55 | offering one more name to the heap keeps it the first names of the whole list, sorted |
| `Directories.Select` | homie/crates/homie-engine/src/directories.rs:25-56 | an error among the scanned entries fails; else the first 512 of the sorted directory names of the first 16384 entries, and whether entries were unscanned or names surplus |
| `Directories.ResponseLength` | homie/crates/homie-engine/src/directories.rs:63-85 | the response's bytes are the charge for its entries, less the first comma, plus one to spell false |
| `Directories.Bound` | homie/crates/homie-engine/src/directories.rs:71-85 | the longest prefix whose charge is within the limit, and whether it is cut |
| `Directories.List` | homie/crates/homie-engine/src/directories.rs:13-91 | the two loops together; truncated exactly when an entry was unscanned or a scanned directory is missing |
| `Directories.ListedAreTheFirst` | homie/crates/homie-engine/src/directories.rs:25-91 | byte by byte, the list is ascending and no scanned directory left out comes before a listed one; with truncated false the list is every directory of the folder |
| `Directories.EscapedIsJson` | homie/crates/homie-engine/src/directories.rs:63-85 | what is written of a path holds nothing raw that a JSON string may not |
| `Directories.ListingFits` | homie/crates/homie-engine/src/directories.rs:57-91 | for every path of at most 4096 bytes, a byte made at most three by lossy decoding, the response is within the limit |
| `Directories.ResponseWithinLimit` | homie/crates/homie-engine/src/directories.rs:63-85 | the response is within the limit if and only if the empty truncated one is below it, or meets it and something is left out |
| `QuickOpen.Children` | homie/crates/homie-app/src/quick_open.rs:217-234 | appends the folders that are neither hidden, skipped nor symlinks; nothing if unreadable |
| `QuickOpen.Scan` | homie/crates/homie-app/src/quick_open.rs:178-212 | the capped scan is exactly the first 20000 entries of the uncapped scan to depth 4 |
| `QuickOpen.ScanStandalone` | homie/crates/homie-app/src/quick_open.rs:182-190 | the standalone roots, once each, up to the cap |
| `QuickOpen.ScanLevel` | homie/crates/homie-app/src/quick_open.rs:197-210 | one level after what was found, up to the cap, and the next frontier if not full |
| `QuickOpen.ScannedAreDistinct` | homie/crates/homie-app/src/quick_open.rs:178-212 | no path twice, at most the cap |
| `QuickOpen.DepthIsLeastDistance` | homie/crates/homie-app/src/quick_open.rs:170-212 | each entry is a standalone root at depth 0, or its depth is its least distance from a root and every folder nearer to a root is listed before it |
| `QuickOpen.BelowTheCapIsComplete` | homie/crates/homie-app/src/quick_open.rs:192-212 | below the cap every folder down to the depth limit is listed |
| `QuickOpen.LevelIsWalks` | homie/crates/homie-app/src/quick_open.rs:192-210 | the folders of a level are exactly the ends of walks of that many steps from a root |
| `QuickOpen.SubfoldersAre` | homie/crates/homie-app/src/quick_open.rs:217-234 | each step of a walk goes to a listed child that is a folder, not hidden and of no skipped name, and to every such child |
| `ReviewPrompts.ClipPlainFits` | homie/crates/homie-app/src/review_prompt.rs:329-340 | the result is UTF-8 within the limit, for any limit and marker |
| `ReviewPrompts.ClipContextFits` | homie/crates/homie-app/src/review_prompt.rs:310-327 | the same for a clipped item |
| `ReviewPrompts.MarkerIsKept` | homie/crates/homie-app/src/review_prompt.rs:315-326 | with fewer than 10^8 bytes omitted the whole marker is kept, the kept and omitted bytes add up, and at most three bytes more than the reserve are given up |
| `ReviewPrompts.DigitsReadBack` | homie/crates/homie-app/src/review_prompt.rs:315-326 | the digits a marker shows spell the number |
| `ReviewPrompts.Compose` | homie/crates/homie-app/src/review_prompt.rs:80-127 | the loops compute the outcome of every branch |
| `ReviewPrompts.ValidatedIsComposed` | homie/crates/homie-app/src/review_prompt.rs:80-127 | what passes validation is composed, within 64 KiB: both PromptTooLarge branches are unreachable |
| `ReviewPrompts.PromptIsUtf8` | homie/crates/homie-app/src/review_prompt.rs:103-116 | the prompt is UTF-8 |
| `ReviewPrompts.SmallItemsAppearWhole` | homie/crates/homie-app/src/review_prompt.rs:94-116 | every item up to 7098 bytes appears whole under its number, after the items before it, and the prompt ends with the question verbatim |

## Left out

- EventBuses.EventBus.Publish: states the publish of a single publisher with nothing in between; the interleavings of its two halves are in `Delivery`.
- Resume.GaplessResume: does not model payloads that do not encode, which serde_json values always do.
- GridUpdates.Encoded: does not model geometry, row numbers or counts beyond 16 bits, on which the source traps.
- Grid.AppendRow: does not model rows of more than 65535 runs, on which the source traps.
- SubscriberQueues.QueueConservation: says nothing of the queue's length at capacity 0, which the bus never sets.
- Waiting in `recv`, condition variables and wake-ups: a wait is a step that finds an event or not.
- Timers: a timeout is a step that may happen at any moment it could; 16 ms coalescing and back-off delays are not modelled.
- Sinks that join a running pump: their first diffs may repeat or miss what their snapshot shows, and nothing is promised.
- Attach frames from the client, writes to sinks that fail, wake sources and interactive priority.
- `shutdown` of the client, which fails pending requests a second time, and reconnect states shown to the user.
- Which files, snapshots and provider calls a handoff stands for; node identities are Source and Target.
- Lease identifiers are numbers; that two handoffs draw different ones is not modelled.
- Pasteboard and key maps of the editor; `insert` and `insert_multiline` are one operation with a flag; `set_cursor` is `move_to`.
- Scrolling and rendering of the composer.
- Expansion, patterns, substitutions and double quotes of the shell language: the reader refuses text that uses them unquoted.
- Where executables are found on `PATH`: the search is a parameter.
- Which folder a listing request resolves to; the heap enters as its ascending list.
- Names and repository flags of Quick Open entries, its cache and its ranking.
- The wording of labels and rendered evidence in prompts: they enter as texts.
- Session switching, attention roll-up, updater phases, wait-target aliases and other small tables: easy members.
