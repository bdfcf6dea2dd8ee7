# Verification model of freeathome2mqtt

freeathome2mqtt bridges a free@home System Access Point (SysAP: REST and WebSocket) and an MQTT broker.
This project models the bridge's own state machines and its compiler in Dafny and proves what they promise
over every input and every run. `dafny verify dfyconfig.toml` checks it.

A coroutine runs without interruption from one `await` to the next, so the asynchronous parts are state
machines whose steps are the code between two `await`s: a `Machine` (or `System`, `Limiter`) datatype with
`Enabled` and `Step`, lemmas over whole runs, and a class with the source's fields whose methods are proved
to make exactly those steps. The broker is the map of its retained messages, the SysAP a growing history of
datapoint writes. Times are reals.

| module | models |
|---|---|
| `Text`, `Keys`, `Lists`, `Bits`, `Values`, `Wrappers` | string order and splitting, sorted keys, flattening and sizes, bitmasks, JSON scalars with Python's `==` |
| `State`, `Publishing`, `Interleaving` | the state store, payloads and the delta flush, flushes beside concurrent writers |
| `Ingress` | the WebSocket reader's buffer, datapoint routing, snapshot and replay |
| `Resync`, `Faithfulness`, `Supervision` | diff, retract, replay, flush: the laws on values, what overlapping flushes leave between resyncs, and the resync's steps on live objects |
| `Commands`, `Reconcile` | the debounced command path, unconfirmed marks, timers and the read budget |
| `Reload`, `Rest`, `Availability` | the resync debouncer, the adaptive limiter and retry loop, availability |
| `Claims`, `Newcomer`, `Naming`, `Words`, `Topics` | slug resolution, what a new entity changes in it, slugs and the words they keep, topic builders and the command parser |
| `Profiles`, `Collect`, `Tables`, `Compiler` | profile matching, the walk and its tally, the flat tables |
| `Split`, `Codecs` | the inventory splitter, the colour temperature and scaled codecs |

`Compiler.BrokerEndsAtTheTruth` ties most of this together: a configuration fetched while frames are being
buffered, compiled, seeded, diffed, replayed and flushed leaves the broker with the payloads of values that
show what the SysAP holds now, up to Python's `==`, and with nothing else.

Most methods are proved against a specification function, and the laws are about that function. What such a
function answers is in turn stated from its inputs, without its own name: the keys and values of a payload
(`Publishing.PayloadKeys`), the edges of a frame (`Ingress.EdgeOfEvent`), the words of a slug
(`Words.SlugOfName`), the verdict on a channel (`Collect.VerdictMeans`), the entry of a command
(`Tables.EgressBindingMeans`), and so on.

## Where the code and its documentation differ

The model follows the code. Each point names the lemmas that show it and those that say exactly when the
documented behaviour does hold.

- A slug may have up to 129 characters although docs/03 section 1.1 allows 64: the channel suffix is added
  after truncation (`Naming.EscalatedSlugCanBeTooLong`). It is longer exactly if it is the channel option and
  stem and suffix have 64 characters or more together (`Naming.AssignedSlugIsTooLongIff`).
- A new device can take the area slug, and so the topic, of an existing one whose id is larger, although the
  comment in `resolve_slugs` rules that out (`Naming.NewcomerCanTakeATopic`). It disturbs nobody exactly if
  nobody holds its bare name as their own and the option it gets is not held by a larger id
  (`Newcomer.NewcomerDisturbsNobodyInTerms`, `Newcomer.NewEntityKeepsTopicsIff`).
- An entity whose slug is `bridge` publishes its events on the bridge's own event topic
  (`Topics.BridgeSlugClashes`), and a name can be that slug (`Naming.BridgeIsASlug`).
- With id topics the topic table is still keyed by slug, so commands reach only entities whose slug is their
  slugified id (`Compiler.CommandsReachTheirEntityIff`; one that hears none: `Compiler.IdTopicMissesItsEntity`).
- docs/05 section 4.2 restarts the window after a trailing write; the code does not, and two writes can go out
  at one instant (`Commands.TrailingWriteOpensNoWindow`). Two writes in a row are a window apart unless the
  first is a trailing one or one of them comes from a shutdown flush (`Commands.WritesAreSpaced`).
- A flush at shutdown repeats a value that has been sent (`Commands.FlushRepeatsAWrite`), exactly if the open
  window has nothing new to send (`Commands.FlushRepeatsIff`).
- docs/05 section 4.3 says a request during a reload only sets a flag. The timer slot is free by then, so the
  code arms a new waiter and resyncs can overlap (`Reload.ResyncsCanOverlap`): exactly if one is still under
  way when an armed waiter's sleeps are over (`Reload.OverlapIsPossibleIff`), hence never while resyncs are
  shorter than the minimum interval (`Reload.ShortResyncsNeverOverlap`).
- An entity whose topic changes while its values do not is not published at its new topic by a resync
  (`Resync.AgreementAfterResync`), and its old topic is not cleared, since its id is not removed
  (`Resync.OldTopicStaysRetained`). `Resync.CleanAfterResync` says exactly when a resync leaves the broker as a
  republish of everything would.
- A resync carries no dirty marks over, so a report that came before it and was not yet published can be lost
  (`Resync.ReportBeforeResyncIsLost`): at an unchanged topic exactly if the live values are the fetched ones
  and no replayed frame changes them (`Resync.WaitingChangeIsForgotten`, `Resync.KeptAgreementIff`).
- A flush forgets a change made while the same entity's publish is under way
  (`Interleaving.ChangeDuringPublishIsLost`) until that entity's next undisturbed publish
  (`Interleaving.CleanPublishHeals`).
- The periodic refresher, which fetches before it arms the buffer, can miss a write
  (`Ingress.LateBufferMissesAWrite`, and exactly when: `Ingress.ReplayIsExactIff`).
- A read that was under way before a newer command settles that command with its old answer
  (`Reconcile.OldAnswerSettlesNewerGuess`); without such a read the mark waits for newer news
  (`Reconcile.NewMarkOutlivesOldReads`, `Reconcile.OldReadCanSettleIff`).
- A `401` is retried when its body cannot be read (`Rest.BadCredentialsAreNotRetried`).
- A device that is removed and comes back in the same condition stays without its availability topic
  (`Availability.ReturningDeviceIsSilent`; exactly when a report is held: `Availability.ReportIsHeldIff`).
- Two attributes of a profile with one pairing leave the earlier one without a datapoint to read
  (`Compiler.AttributeIsReadableIff`).

## Model

| member | source | states |
|---|---|---|
| Values.SameAcrossTypes | src/freeathome2mqtt/bus/state.py:42 | Python's `==` compares numbers of different types and booleans by value |
| Values.SameWithinType | src/freeathome2mqtt/bus/state.py:42 | values of one type, and strings and null beside anything, compare equal only if they are equal |
| Text.AtMostMeans | src/freeathome2mqtt/model/compiler.py:255 | strings are ordered by code points: a prefix first, else the first difference decides |
| State.ReportTouchesOneAttribute | src/freeathome2mqtt/bus/state.py:29-47 | a report changes at most its own attribute and its own mark, clears that mark even when the value is the old one, and makes the entity dirty exactly if the value is news |
| State.GuessTouchesOneAttribute | src/freeathome2mqtt/bus/state.py:49-59 | a command's guess is stored, marked and dirty in any case, and no other attribute's value or mark changes |
| State.BlankIsUnknown | src/freeathome2mqtt/bus/state.py:19-23 | a new store has every value unknown, no mark and nothing dirty |
| State.StateStore.constructor | src/freeathome2mqtt/bus/state.py:19-23 | every value unknown, nothing unconfirmed, nothing dirty |
| State.StateStore.Seed | src/freeathome2mqtt/bus/state.py:25-27 | seeding sets one value and neither marks nor dirties anything |
| State.StateStore.Apply | src/freeathome2mqtt/bus/state.py:29-47 | the whole new store is the reported one; the result says whether the value changed |
| State.StateStore.MarkOptimistic | src/freeathome2mqtt/bus/state.py:49-59 | the whole new store is the guessed one |
| State.StateStore.TakeDirty | src/freeathome2mqtt/bus/state.py:61-64 | the dirty set is handed out and emptied at once |
| Bits.SetOne | src/freeathome2mqtt/bus/state.py:57 | setting bit `n` adds `n` to the set of marked attributes and nothing else |
| Bits.ClearOne | src/freeathome2mqtt/bus/state.py:40 | `mask & ~(1 << n)` removes `n` from the set and nothing else |
| Bits.AndFinds | src/freeathome2mqtt/bus/reconcile.py:93 | `mask & (1 << n)` is non-zero exactly if `n` is in the set |
| Publishing.PayloadKeys | src/freeathome2mqtt/bus/publisher.py:56-72 | a payload has exactly the keys `id`, the STATE attribute names and the name its transform derives, no EVENT attribute's; it exists exactly if the transform finds the values it indexes |
| Publishing.PayloadShows | src/freeathome2mqtt/bus/publisher.py:62-70 | `id` is the entity's id and every STATE attribute has its own value, unless a later one or the transform has the same name |
| Publishing.ControllerShowsMode | src/freeathome2mqtt/model/transforms.py:80-86 | `off`, else `eco`, else the reported mode |
| Publishing.CoverShowsSlats | src/freeathome2mqtt/model/transforms.py:113-115 | no slat position exactly for a fully open cover |
| Publishing.PayloadRespectsSame | src/freeathome2mqtt/bus/publisher.py:56-72 | values that compare equal in Python build payloads that do, transforms included |
| Publishing.Publisher.BuildPayload | src/freeathome2mqtt/bus/publisher.py:56-72 | the loop builds the id, every STATE attribute and what the transform derives, or fails where the transform raises |
| Publishing.Publisher.PublishOne | src/freeathome2mqtt/bus/publisher.py:92-97 | the dirty mark goes only together with a successful publish of the current payload; a failure changes nothing |
| Publishing.Publisher.FlushDirty | src/freeathome2mqtt/bus/publisher.py:83-97 | the flush publishes the dirty entities in ascending order until one publish raises, and everything not reached stays dirty |
| Publishing.AscendingIsInOrder | src/freeathome2mqtt/bus/publisher.py:88 | the dirty entities are taken in ascending order |
| Publishing.FlushStops | src/freeathome2mqtt/bus/publisher.py:88-97 | a flush raises exactly if it stopped before the end, at the first publish without payload or connection; just the entities before that are no longer dirty, and no other topic changes |
| Publishing.FlushShows | src/freeathome2mqtt/bus/publisher.py:92-97 | however a flush ends, the broker holds the payloads of what was published |
| Interleaving.CleanEntitiesArePublished | src/freeathome2mqtt/bus/publisher.py:83-97 | in every run of reports, guesses and overlapping flushes with publishes failing anywhere, an entity that is not dirty has its current payload at the broker, unless it changed during one of its own publishes and has had no undisturbed publish since |
| Interleaving.StepKeepsInv | src/freeathome2mqtt/bus/publisher.py:92-97 | every single step of writers and flushes keeps that |
| Interleaving.ChangeDuringPublishIsLost | src/freeathome2mqtt/bus/publisher.py:95-96 | the exception is needed: for any entity and any payload-changing report there is a run that ends with nothing dirty and a stale broker |
| Interleaving.CleanPublishHeals | src/freeathome2mqtt/bus/publisher.py:92-97 | a publish that is the entity's only one under way and during which it does not change restores the agreement and ends the exception |
| Interleaving.FlushIsARun | src/freeathome2mqtt/bus/publisher.py:83-97 | the uninterrupted flush is one of those runs, step for step |
| Ingress.DispatchMeans | src/freeathome2mqtt/sysap/ws.py:242-262 | dropped exactly for another SysAP's uuid or a body that is no object, else overflow, buffer or delivery by mode and limit |
| Ingress.TakenAreFrames | src/freeathome2mqtt/sysap/ws.py:242-262 | frame `k` taken is the object body of the listened SysAP with `k` such bodies before it |
| Ingress.TakenAreCounted | src/freeathome2mqtt/sysap/ws.py:242-262 | no other frame is taken |
| Ingress.BufferKeepsEverything | src/freeathome2mqtt/sysap/ws.py:242-262 | unless it overflows, the buffer holds every frame body taken from the stream, in order of arrival |
| Ingress.WsReader.StartBuffering | src/freeathome2mqtt/sysap/ws.py:121-124 | buffering starts with an empty buffer |
| Ingress.WsReader.DrainBuffer | src/freeathome2mqtt/sysap/ws.py:126-130 | everything collected is returned and buffering ends |
| Ingress.WsReader.DispatchOne | src/freeathome2mqtt/sysap/ws.py:242-262 | a body is dropped, buffered, delivered or overflows, by SysAP uuid, shape, mode and limit |
| Ingress.FramesAreOneStream | src/freeathome2mqtt/bus/ingress.py:58-64 | processing frame by frame is processing one stream of datapoints |
| Ingress.Router.ProcessDatapoint | src/freeathome2mqtt/bus/ingress.py:66-84 | an event goes past the store, a STATE datapoint is applied with its own bit, an unknown key does nothing |
| Ingress.Router.ProcessFrame | src/freeathome2mqtt/bus/ingress.py:58-64 | a frame is its datapoints in order; each event edge is scheduled once |
| Ingress.EdgesAreCounted | src/freeathome2mqtt/bus/ingress.py:66-84 | a frame has as many edges as datapoints bound to an EVENT, repeats included |
| Ingress.EdgeOfEvent | src/freeathome2mqtt/bus/ingress.py:75-83 | edge `k` has the entity, attribute and decoded text of the event datapoint with `k` such before it |
| Ingress.RoutedIsOneReport | src/freeathome2mqtt/bus/ingress.py:66-84 | an event or unknown datapoint leaves the store alone, any other is a report on just its attribute |
| Ingress.LastWriteWins | src/freeathome2mqtt/bus/ingress.py:66-84 | after a replay an attribute shows its last replayed write, or what it showed before if there was none |
| Ingress.ReplayIsExact | src/freeathome2mqtt/supervisor.py:649-661 | buffer from write b, fetch at s >= b, replay b onward: every STATE attribute shows the full history, although writes before s are replayed over a newer snapshot |
| Ingress.DrainedBufferIsExact | src/freeathome2mqtt/supervisor.py:1102-1112 | the same for the frames the reader really buffered between arming and draining |
| Ingress.LateBufferMissesAWrite | src/freeathome2mqtt/supervisor.py:1168-1173 | for every s < b there is a history after which the replay leaves a stale value |
| Ingress.ReplayIsExactIff | src/freeathome2mqtt/supervisor.py:1102-1112 | for fetch and arming in either order: the replay is exact exactly if every datapoint the replayed writes leave alone had, at the fetch, a raw value that decodes as its latest one does |
| Resync.FlushSettles | src/freeathome2mqtt/bus/publisher.py:83-97 | a flush that succeeds leaves nothing dirty, replaces the topics of the dirty entities and no other |
| Resync.RoutingMarksChanges | src/freeathome2mqtt/bus/ingress.py:66-84 | routing changes values only of entities it marks dirty |
| Resync.KeptEntityAgrees | src/freeathome2mqtt/supervisor.py:1126-1142 | a survivor with unchanged values at its old topic needs no publish: what the broker holds is still its payload |
| Resync.MovedEntityDisagrees | src/freeathome2mqtt/supervisor.py:1126-1142 | a survivor with unchanged values at a new topic is not published there |
| Resync.AgreementIff | src/freeathome2mqtt/supervisor.py:1091-1150 | from any state: after a resync the broker agrees with an entity exactly if it was published in this resync or agreed right after the diff |
| Resync.CleanIff | src/freeathome2mqtt/supervisor.py:1091-1150 | from any state: a resync ends clean exactly if every entity was published or agreed after the diff and the diff left no foreign topic |
| Resync.AgreementAfterResync | src/freeathome2mqtt/supervisor.py:1091-1150 | after a resync that began clean the broker agrees with an entity exactly if it was published in this resync or kept its topic |
| Resync.OldTopicStaysRetained | src/freeathome2mqtt/supervisor.py:1147-1150 | the topic a surviving entity had is still retained after the resync, even if the entity moved |
| Resync.CleanAfterResync | src/freeathome2mqtt/supervisor.py:1091-1150 | publishing the delta leaves the broker as a republish of everything would, agreement on every entity and no foreign topic, exactly if every entity was published or kept its topic and every topic that was retained and not cleared has an owner |
| Resync.KeptTopicsStayClean | src/freeathome2mqtt/supervisor.py:1091-1150 | in particular a clean bridge stays clean while the surviving entities keep their topics |
| Resync.RemovedTopicsAreCleared | src/freeathome2mqtt/supervisor.py:1147-1159 | a removed entity's topic is gone unless an entity published in this resync took it over, and conversely |
| Resync.MarkedIff | src/freeathome2mqtt/supervisor.py:1102-1141 | from any state: an entity is published in a resync exactly if it is new, its live values differ from the fetched ones, or a replayed frame changes it |
| Resync.KeptAgreementIff | src/freeathome2mqtt/supervisor.py:1091-1150 | from any state: the broker agrees with an entity at its old topic afterwards exactly if it was published in this resync or the broker agreed with it before |
| Resync.WaitingChangeIsForgotten | src/freeathome2mqtt/supervisor.py:1136-1141 | nothing is dirty after a resync, and an entity that keeps its topic, was dirty and was not yet shown at the broker is shown afterwards exactly if its live values differ from the fetched ones or a replayed frame changes it; otherwise its change is lost |
| Resync.ReportBeforeResyncIsLost | src/freeathome2mqtt/supervisor.py:1136-1141 | for any report that makes a clean bridge's entity differ from the broker, a resync before its publish that fetches the reported values ends with nothing dirty and the broker stale |
| Resync.StartupIsClean | src/freeathome2mqtt/supervisor.py:657-670 | startup marks everything dirty, so its first successful flush leaves the bridge clean |
| Resync.CleanAfterReports | src/freeathome2mqtt/bus/ingress.py:58-84 | reports followed by a successful flush leave a clean bridge clean |
| Faithfulness.RunsStayFaithful | src/freeathome2mqtt/bus/publisher.py:83-97 | after any run of reports, guesses and overlapping flushes the broker agrees with every entity that is neither dirty nor raced and holds only the model's topics; with nothing dirty and no race left the bridge is clean, as a resync asks of its start |
| Faithfulness.FaithfulStarts | src/freeathome2mqtt/supervisor.py:657-670 | such runs may begin at a clean bridge, or at startup with everything dirty |
| Supervision.Supervisor.SeedState | src/freeathome2mqtt/supervisor.py:806-811 | the two loops give a new store exactly the initial values |
| Supervision.Supervisor.MarkDifferences | src/freeathome2mqtt/supervisor.py:1137-1141 | dirty becomes exactly the set of new entities and of those whose live values differ from the fetched ones |
| Supervision.Supervisor.RetractEntity | src/freeathome2mqtt/supervisor.py:1152-1156 | the state topic and then, if there is one, the availability topic are cleared, as far as the connection accepts publishes; the result says whether both were |
| Supervision.RetractedTopics | src/freeathome2mqtt/supervisor.py:1152-1156 | what is cleared is the state topic and then the availability topic, if there is one |
| Supervision.Supervisor.RetractRemoved | src/freeathome2mqtt/supervisor.py:1147-1150 | in order of their ids the topics of exactly the entities missing from the new model are cleared, up to the first publish that is refused |
| Supervision.Supervisor.DiffAndApply | src/freeathome2mqtt/supervisor.py:1126-1150 | model, store and dirty marks become those of the resync's diff step in any case, the broker's topics those of a prefix of the retractions, and of all of them if none is refused |
| Supervision.Supervisor.FinishResync | src/freeathome2mqtt/supervisor.py:1106-1114 | diff, drain, replay and flush on the live objects end, for every number of publishes the connection accepts, exactly where the specification says: in the middle of the retractions with the buffer still filling, in the middle of the flush, or at the end |
| Supervision.FinishedIsEnd | src/freeathome2mqtt/supervisor.py:1106-1114 | a resync that is not interrupted ends in the state the resync laws are about |
| Supervision.InterruptedRetraction | src/freeathome2mqtt/supervisor.py:1126-1156 | with too few publishes for the retractions the new model and its dirty marks stand, and just the first topics are gone |
| Supervision.InterruptedFlush | src/freeathome2mqtt/supervisor.py:1106-1114 | with enough, the buffered frames are replayed and the rest of the publishes goes to the flush |
| Supervision.RemovedInOrderAreAll | src/freeathome2mqtt/supervisor.py:1147-1156 | clearing the removed entities' topics one after the other clears what the diff step clears |
| Commands.DiscreteIsWritten | src/freeathome2mqtt/bus/commands.py:292-317 | a discrete command is written at once, be it the same as the last |
| Commands.FirstOfBurstIsWritten | src/freeathome2mqtt/bus/commands.py:302-317 | a continuous command without a window is written at once and opens one |
| Commands.RestOfBurstIsHeld | src/freeathome2mqtt/bus/commands.py:302-317 | with a window it is kept as the pending value, and the old window's coroutine is replaced |
| Commands.CloseMeans | src/freeathome2mqtt/bus/commands.py:322-329 | at its end a window is gone, and the latest value is written exactly if it is not the last one written |
| Commands.LatestValueWins | src/freeathome2mqtt/bus/commands.py:292-337 | in every reachable state a key has a window exactly while a value is pending, that value is the latest enqueued, and without a window the last value sent is the latest enqueued |
| Commands.StepKeepsInv | src/freeathome2mqtt/bus/commands.py:292-337 | every enqueue, window end and flush keeps that |
| Commands.FlushDropsNothing | src/freeathome2mqtt/bus/commands.py:107-120 | after a shutdown flush no window is left and every key's last write is the latest value enqueued on it |
| Commands.WritesAreNotAmplified | src/freeathome2mqtt/bus/commands.py:292-337 | in any run a key is written at most once per command, plus once per flush |
| Commands.FlushRepeatsAWrite | src/freeathome2mqtt/bus/commands.py:112-120 | the flush term is needed: one command and one flush can be two writes |
| Commands.FlushRepeatsIff | src/freeathome2mqtt/bus/commands.py:107-120 | a flush writes every key with a window once, and repeats its last write exactly if the window has nothing new to send; other keys are not written |
| Commands.BurstIsTwoWrites | src/freeathome2mqtt/bus/commands.py:292-329 | a burst of any length with gaps below the window, whatever other keys do, is written as its first value and, if different, its last |
| Commands.WritesAreSpaced | src/freeathome2mqtt/bus/commands.py:292-337 | in any run two consecutive writes on a continuous key are a window apart unless the first is a trailing or a flushed one or the second is flushed |
| Commands.TrailingWriteOpensNoWindow | src/freeathome2mqtt/bus/commands.py:322-329 | a command at any moment after a trailing write is written at once, however close |
| Commands.Dispatcher.Send | src/freeathome2mqtt/bus/commands.py:331-337 | the value is handed out and remembered as last sent |
| Commands.Dispatcher.EnqueueWrite | src/freeathome2mqtt/bus/commands.py:292-317 | leading edge, or cancel and restart of the open window; a discrete command is sent at once |
| Commands.Dispatcher.CloseWindow | src/freeathome2mqtt/bus/commands.py:322-329 | the window's end sends the pending value unless it is the one last sent |
| Commands.Dispatcher.FlushPending | src/freeathome2mqtt/bus/commands.py:107-120 | every window is cancelled and every pending value sent |
| Reconcile.CommandMeans | src/freeathome2mqtt/bus/reconcile.py:82-88 | a command's guess is stored and marked; a confirmable one arms its own timer and cancels the attribute's earlier one |
| Reconcile.WakeUpMeans | src/freeathome2mqtt/bus/reconcile.py:90-110 | after the delay a timer reads exactly if the mark is still set and no read of the entity is recent |
| Reconcile.RequestMeans | src/freeathome2mqtt/bus/reconcile.py:97-135 | a request reads its attributes in turn for one grant, or nothing if a read is recent |
| Reconcile.AnswerMeans | src/freeathome2mqtt/bus/reconcile.py:112-135 | an answer is a report on the attribute being read, and the request goes on to the next |
| Reconcile.ReadsAreSpaced | src/freeathome2mqtt/bus/reconcile.py:46-53 | in any run two reads granted to one entity are at least the interval apart, whichever path asked |
| Reconcile.RefusedExactlyWhenRecent | src/freeathome2mqtt/bus/reconcile.py:46-53 | a read is refused exactly when the same entity was granted one less than the interval ago |
| Reconcile.EveryGuessIsWatched | src/freeathome2mqtt/bus/reconcile.py:82-110 | an attribute commanded only with confirmation and still marked has its timer armed or its read under way, unless its latest timer was refused a read or got no answer |
| Reconcile.OneReadPerCommand | src/freeathome2mqtt/bus/reconcile.py:90-110 | in any run there are at most as many timer reads as confirmable commands |
| Reconcile.UnmarkedMeansTold | src/freeathome2mqtt/bus/reconcile.py:112-135 | in any run a value without a mark is what the SysAP last said about it |
| Reconcile.OldAnswerSettlesNewerGuess | src/freeathome2mqtt/bus/reconcile.py:112-135 | an answer to an older read clears a newer command's mark, and that command's timer then reads nothing |
| Reconcile.NewMarkOutlivesOldReads | src/freeathome2mqtt/bus/reconcile.py:82-135 | if no read of the attribute is under way when a command marks it, the mark stays in any run until a report on it or the answer to a read started later |
| Reconcile.OldReadCanSettleIff | src/freeathome2mqtt/bus/reconcile.py:82-135 | a mark can be cleared without newer news exactly if a read of the attribute, by timer or by request, is under way when the command is given |
| Reconcile.RateLimiter.Allow | src/freeathome2mqtt/bus/reconcile.py:46-53 | the answer and the new budget |
| Reconcile.Reconciler.Schedule | src/freeathome2mqtt/bus/reconcile.py:82-88 | the attribute's old timer is cancelled and a new one armed |
| Reconcile.Reconciler.Guess | src/freeathome2mqtt/bus/commands.py:278-285 | the optimistic part of a command marks the attribute and arms its timer if the command asks for confirmation |
| Reconcile.Reconciler.WakeUp | src/freeathome2mqtt/bus/reconcile.py:90-110 | the timer's end does nothing for a confirmed mark, and otherwise starts one read if the budget allows |
| Reconcile.Reconciler.StartReads | src/freeathome2mqtt/bus/commands.py:373-378 | one grant pays for all reads of one request |
| Reconcile.Reconciler.FinishRead | src/freeathome2mqtt/bus/reconcile.py:112-135 | an answer is applied with its own bit, a failure changes no value |
| Reload.AtMostOneWaiter | src/freeathome2mqtt/supervisor.py:425-447 | in every run at most one coroutine waits, and it is the one in the timer slot |
| Reload.ResyncsAreSpaced | src/freeathome2mqtt/supervisor.py:431-447 | two resyncs of one run start at least the minimum interval apart, even if they overlap |
| Reload.StartIsPossibleIff | src/freeathome2mqtt/supervisor.py:425-447 | a resync can start at a moment exactly if a waiter is armed and its sleeps are over |
| Reload.OverlapIsPossibleIff | src/freeathome2mqtt/supervisor.py:425-447 | resyncs can begin to overlap at a moment exactly if one is under way and an armed waiter's sleeps are over |
| Reload.ResyncsInTimeNeverOverlap | src/freeathome2mqtt/supervisor.py:425-447 | in every run in which resyncs return before the next waiter's sleeps are over at most one is under way |
| Reload.ShortResyncsNeverOverlap | src/freeathome2mqtt/supervisor.py:425-447 | resyncs shorter than the minimum interval never overlap, in any run |
| Reload.ResyncsCanOverlap | src/freeathome2mqtt/supervisor.py:425-447 | for any delays, a request during a long resync leads to two resyncs under way at once |
| Reload.ResyncsAreDebounced | src/freeathome2mqtt/supervisor.py:425-447 | each resync starts at least the debounce delay after the event that armed its waiter |
| Reload.NoRequestIsLost | src/freeathome2mqtt/supervisor.py:425-447 | in a run that comes to rest every request is followed by a resync that starts after it |
| Reload.RequestsAreNotAmplified | src/freeathome2mqtt/supervisor.py:425-447 | in any run there are never more resyncs than outside requests |
| Reload.StartsAreCounted | src/freeathome2mqtt/supervisor.py:444-445 | `reload_count` is the number of resyncs started |
| Reload.BurstCollapses | src/freeathome2mqtt/supervisor.py:425-447 | any number of requests before the first resync costs at most two resyncs |
| Reload.GoesIdle | src/freeathome2mqtt/supervisor.py:425-447 | without new requests every run is bounded and its end is idle |
| Reload.Debouncer.constructor | src/freeathome2mqtt/supervisor.py:408-423 | nothing armed, no flag, no resync yet |
| Reload.Debouncer.Request | src/freeathome2mqtt/supervisor.py:425-429 | an armed timer turns a request into the flag, otherwise the request arms it |
| Reload.Debouncer.StartResync | src/freeathome2mqtt/supervisor.py:437-444 | the slot is given up and the flag captured before the resync starts |
| Reload.Debouncer.Resume | src/freeathome2mqtt/supervisor.py:431-447 | the coroutine between its awaits |
| Rest.NeverOverTheMaximum | src/freeathome2mqtt/sysap/rest.py:96-126 | in every run 1 <= limit <= max, and the counter equals the number of admitted tasks, at most max |
| Rest.SleepersHaveAReason | src/freeathome2mqtt/sysap/rest.py:106-126 | no wakeup is lost: a task sleeps only while as many tasks are admitted as the limit allows, and one of them can leave |
| Rest.AdmittedWithinTheLimit | src/freeathome2mqtt/sysap/rest.py:106-111 | a task is admitted exactly below the limit, also after the limit has shrunk |
| Rest.EveryoneGetsThrough | src/freeathome2mqtt/sysap/rest.py:106-126 | without new arrivals the looks and leaves of a run are bounded, by the work at its start and one more look of each task per success, whatever overloads and successes it holds; and while anyone is left someone can go on |
| Rest.NewLimiterAdmits | src/freeathome2mqtt/sysap/rest.py:96-112 | a new limiter admits as many tasks as its maximum |
| Rest.OverloadsHalve | src/freeathome2mqtt/sysap/rest.py:118-120 | k overloads in a row leave max(1, limit div 2^k) |
| Rest.StopsOnce | src/freeathome2mqtt/sysap/rest.py:280-306 | the retry loop's stopping rule determines the number of attempts |
| Rest.AttemptsAreBounded | src/freeathome2mqtt/sysap/rest.py:272-306 | one attempt or at most `max_attempts`; all but the last were worth repeating, and the last is final or the last allowed |
| Rest.RetriedStatuses | src/freeathome2mqtt/sysap/rest.py:308-327 | tried again exactly without connection, with a body that breaks off, or with status 500 to 599 |
| Rest.VerdictByStatus | src/freeathome2mqtt/sysap/rest.py:308-327 | 400, 401, 403, 404, 502, other 5xx and other statuses each raise their own error, and below 400 the body is the answer |
| Rest.OverloadsAreCounted | src/freeathome2mqtt/sysap/rest.py:308-315 | every attempt that met a 502 counts once as an overload |
| Rest.BadCredentialsAreNotRetried | src/freeathome2mqtt/sysap/rest.py:296-301 | a 401 ends the request at once exactly if its body can be read or no attempt is left |
| Rest.OverloadedOnlyAtTheEnd | src/freeathome2mqtt/sysap/rest.py:312-317 | a request fails as overloaded exactly if its last possible attempt met a readable 502; success is never worth a retry |
| Rest.AdaptiveLimiter.LookAtLimit | src/freeathome2mqtt/sysap/rest.py:106-111 | one round of the waiting loop |
| Rest.AdaptiveLimiter.Exit | src/freeathome2mqtt/sysap/rest.py:113-116 | one task fewer, and every sleeper may look again |
| Rest.AdaptiveLimiter.RecordOverload | src/freeathome2mqtt/sysap/rest.py:118-120 | the limit is halved, at least one |
| Rest.AdaptiveLimiter.RecordSuccess | src/freeathome2mqtt/sysap/rest.py:122-126 | the limit recovers by one up to the maximum and wakes the sleepers |
| Rest.RestClient.Request | src/freeathome2mqtt/sysap/rest.py:272-306 | at most max(1, max_attempts) attempts; all but the last were worth retrying; the outcome is that of the last; one halving per 502 and one recovery on success |
| Rest.RestClient.HandleResponse | src/freeathome2mqtt/sysap/rest.py:308-327 | retry exactly for a 5xx with attempts left; 400, 401, 403, 404 and other errors raise at once; every 502 counts as an overload |
| Availability.OutagesAreAnnounced | src/freeathome2mqtt/availability.py:67-124 | in every run an armed timer means not online, and not online without a timer means the last thing said is not "online" |
| Availability.OnlyChangesAreSaid | src/freeathome2mqtt/availability.py:119-124 | nothing is said twice in a row except by shutdown |
| Availability.GraceIsHeld | src/freeathome2mqtt/availability.py:99-117 | "offline" by the grace timer means not online at any moment of the whole preceding grace period |
| Availability.ShortOutagesAreSilent | src/freeathome2mqtt/availability.py:99-117 | however often the signals come and go, nothing is said while every stretch of not being online is shorter than the grace period |
| Availability.CanSpeakIff | src/freeathome2mqtt/availability.py:99-124 | signals and timers can make the bridge speak at a moment exactly if an armed timer's grace period is over and offline is news |
| Availability.LongOutageIsAnnounced | src/freeathome2mqtt/availability.py:99-117 | after any signals, an outage that has lasted the grace period can be announced then, and leaves offline as the last thing said |
| Availability.OnlyTruthIsSaid | src/freeathome2mqtt/availability.py:79-124 | whatever is said, except by shutdown, is the truth of that moment |
| Availability.SaidFromSignals | src/freeathome2mqtt/availability.py:79-124 | `online` is said only with all three signals on, and `offline`, except by shutdown, only with one off |
| Availability.SignalsAreLatest | src/freeathome2mqtt/availability.py:67-77 | each signal is what it was last set to |
| Availability.SayingCancelsTimer | src/freeathome2mqtt/availability.py:79-97 | saying the current state or the forced offline ends a running grace period |
| Availability.BridgeAvailability.SetMqttConnected | src/freeathome2mqtt/availability.py:67-69 | the signal and its consequence for the timer |
| Availability.BridgeAvailability.SetSysapConnected | src/freeathome2mqtt/availability.py:71-73 | the signal and its consequence for the timer |
| Availability.BridgeAvailability.SetModelLoaded | src/freeathome2mqtt/availability.py:75-77 | the signal and its consequence for the timer |
| Availability.BridgeAvailability.PublishCurrent | src/freeathome2mqtt/availability.py:79-86 | the timer is cancelled and the current state said if it is news |
| Availability.BridgeAvailability.PublishForcedOffline | src/freeathome2mqtt/availability.py:88-97 | "offline" is said in any case |
| Availability.BridgeAvailability.GraceEnds | src/freeathome2mqtt/availability.py:110-117 | the timer is gone and "offline" said if it is news |
| Availability.ReportMeans | src/freeathome2mqtt/availability.py:136-145 | offline exactly if defect or unresponsive, the defect given as the reason first; an unknown device is online |
| Availability.ReportIsHeldIff | src/freeathome2mqtt/availability.py:161-178 | after a publish the broker holds a device's report exactly if it was not the remembered one or the broker still held it |
| Availability.ReturningDeviceIsSilent | src/freeathome2mqtt/availability.py:175-178 | a retracted device that returns in the same condition is not published again |
| Availability.MemoryIsFirst | src/freeathome2mqtt/availability.py:175-178 | a report whose publish fails is remembered and not tried again |
| Availability.DeviceAvailabilityPublisher.PublishReports | src/freeathome2mqtt/availability.py:161-178 | the loop publishes each changed report until one publish raises; the memory is updated before the publish |
| Claims.ResolveSlugs | src/freeathome2mqtt/model/naming.py:75-109 | the loop computes the resolution the laws below are about, or reports the id that could not be named |
| Claims.ResolutionIgnoresOrder | src/freeathome2mqtt/model/naming.py:88-109 | the slugs depend on which candidates there are, not on their order |
| Claims.SlugsAreDistinct | src/freeathome2mqtt/model/naming.py:93-109 | distinct candidates get distinct slugs, each one of its own options |
| Newcomer.ChoiceMeans | src/freeathome2mqtt/model/naming.py:93-101 | a candidate's choice is its first option that is not gone, where a bare name that two share is closed to both |
| Claims.ResolutionIsTotal | src/freeathome2mqtt/model/naming.py:93-101 | no resolution fails while nobody else's options contain a candidate's last resort |
| Claims.ResolutionIsLocal | src/freeathome2mqtt/model/naming.py:75-109 | two groups that share no option are resolved as if the other were not there |
| Claims.NewcomerChangesNothing | src/freeathome2mqtt/model/naming.py:75-109 | a newcomer with options of its own gets its bare name, changes no slug and breaks no resolution |
| Claims.NewcomerCanTakeASlug | src/freeathome2mqtt/model/naming.py:93-107 | a tied newcomer with the smallest id takes the slug of the previous holder |
| Newcomer.ResolutionIsGreedy | src/freeathome2mqtt/model/naming.py:75-109 | an assignment is the resolution exactly if every candidate holds its first eligible option that no smaller id holds |
| Newcomer.NewcomerDisturbsNobodyIff | src/freeathome2mqtt/model/naming.py:75-109 | a newcomer changes no slug and breaks nothing exactly if the option it would get leaves every other candidate's own choice as it is |
| Newcomer.NewcomerDisturbsNobodyInTerms | src/freeathome2mqtt/model/naming.py:75-109 | with distinct options per candidate that is: nobody holds the newcomer's bare name as their own, and the newcomer's first eligible option not held by a smaller id exists and is held by no larger one |
| Newcomer.NewEntityKeepsTopicsIff | src/freeathome2mqtt/model/naming.py:65-109 | the same for the options that names, areas and channels really give |
| Naming.Slugify | src/freeathome2mqtt/model/naming.py:37-53 | every name gets 1 to 64 characters of [a-z0-9_] with single, inner underscores |
| Words.TransliterateSpells | src/freeathome2mqtt/model/naming.py:19-26 | each letter on its own: the umlauts become ae, oe and ue, the sharp s becomes ss, all else is kept |
| Words.WordOfRun | src/freeathome2mqtt/model/naming.py:37-53 | word `k` of a text is its maximal run of [a-z0-9] with `k` runs before it |
| Words.CollapsedIsJoined | src/freeathome2mqtt/model/naming.py:49 | every run of other characters becomes one underscore, at the edges too, and the words are kept in order |
| Words.SlugIsItsWords | src/freeathome2mqtt/model/naming.py:49-53 | what is left is the words with one underscore between neighbours, cut to 64 characters without a trailing underscore, or `unnamed` |
| Words.SlugKeepsWords | src/freeathome2mqtt/model/naming.py:49-53 | a slug that is not cut has exactly the words of its text |
| Words.SlugOfName | src/freeathome2mqtt/model/naming.py:37-53 | the text is the name lower-cased, spelled out and decomposed, in that order |
| Naming.SlugFixedPoints | src/freeathome2mqtt/model/naming.py:37-53 | `slugify` leaves a string alone exactly if it has that shape |
| Naming.SlugIsIdempotent | src/freeathome2mqtt/model/naming.py:37-53 | slugifying twice is slugifying once |
| Naming.SlugOptions | src/freeathome2mqtt/model/naming.py:65-72 | the options in order: bare, area, channel, id |
| Naming.AssignedSlugsAreTopicSafe | src/freeathome2mqtt/model/naming.py:65-109 | every assigned slug is one topic level without wildcards |
| Naming.EscalatedSlugCanBeTooLong | src/freeathome2mqtt/model/naming.py:65-109 | for every name, area and channel whose channel option is overlong there are two entities of which one is assigned that slug of more than 64 characters |
| Naming.OptionIsTooLongIff | src/freeathome2mqtt/model/naming.py:65-72 | an option exceeds 64 characters exactly if it is the channel option and its stem and suffix have 64 or more together |
| Naming.AssignedSlugIsTooLongIff | src/freeathome2mqtt/model/naming.py:65-109 | an assigned slug exceeds 64 characters exactly if it is such an option |
| Naming.BridgeIsASlug | src/freeathome2mqtt/model/naming.py:37-53 | an entity named `bridge`, alone in having that name, is assigned the slug `bridge` |
| Naming.NewcomerCanTakeATopic | src/freeathome2mqtt/model/naming.py:80-107 | a real newcomer with a smaller id takes an existing entity's area slug |
| Topics.EntityTopicLevels | src/freeathome2mqtt/mqtt/topics.py:19-40 | an entity's topics, level by level: prefix, slug, and `set`, `set/<attribute>`, `get`, `availability` or `event` |
| Topics.BridgeTopicLevels | src/freeathome2mqtt/mqtt/topics.py:43-76 | the bridge's own topics and requests are below prefix and `bridge` |
| Topics.ParserInvertsPrinter | src/freeathome2mqtt/bus/commands.py:140-152 | a topic parses to a command exactly if it is the topic printed for it under a slug of its entity |
| Topics.EntityTopicsAreNotCommands | src/freeathome2mqtt/mqtt/topics.py:19-40 | state, availability and event topics parse to nothing |
| Topics.BridgeTopicsAreNotCommands | src/freeathome2mqtt/mqtt/topics.py:43-76 | the bridge's own topics and requests parse to nothing, even beside an entity called `bridge` |
| Topics.StateTopicsDiffer | src/freeathome2mqtt/mqtt/topics.py:19-20 | two slugs have one state topic exactly if they are equal |
| Topics.AvailabilityIsNoState | src/freeathome2mqtt/mqtt/topics.py:35-36 | no availability topic is a state topic |
| Topics.BridgeSlugClashes | src/freeathome2mqtt/mqtt/topics.py:39-64 | an entity's event topic is the bridge's exactly if its slug is `bridge` |
| Topics.SafeSlugsMakeSafeTopics | src/freeathome2mqtt/mqtt/topics.py:116-119 | with an assigned slug every entity topic passes the wildcard check |
| Profiles.FindDatapointKey | src/freeathome2mqtt/model/compiler.py:253-257 | the loop over sorted keys finds the first with the pairing |
| Profiles.KeyOfIsLeast | src/freeathome2mqtt/model/compiler.py:253-257 | a key is found exactly if one carries the pairing, and it is the least of them |
| Profiles.MatchProfile | src/freeathome2mqtt/model/compiler.py:289-305 | the loop and the sort compute the match the laws below are about |
| Profiles.MatchIsBest | src/freeathome2mqtt/model/compiler.py:289-305 | the match is the most specific matching profile, the least id among equals; none exactly if none matches; ambiguous exactly if another is as specific |
| Profiles.MatchRequiresMost | src/freeathome2mqtt/model/compiler.py:285-305 | no fitting profile requires more outputs and inputs together than the chosen one, of those with as many it has the least id, and the choice is ambiguous exactly if another requires as many |
| Profiles.MoreRequiredWins | src/freeathome2mqtt/model/compiler.py:285-305 | a profile that requires all another does and more wins over it |
| Profiles.FitsIff | src/freeathome2mqtt/model/compiler.py:274-282 | a profile fits exactly if every required pairing is found among the outputs and inputs |
| Profiles.MatchIgnoresOrder | src/freeathome2mqtt/model/compiler.py:289-305 | the order of the profiles decides nothing |
| Profiles.RequiredKeysExist | src/freeathome2mqtt/model/compiler.py:274-282 | a matching channel has a datapoint for every required pairing |
| Collect.IncludedMeans | src/freeathome2mqtt/model/compiler.py:192-200 | virtual devices, by serial `6000…` or interface `VD`, are left out unless wanted, and excluded interfaces always |
| Collect.VerdictMeans | src/freeathome2mqtt/model/compiler.py:177-187 | a channel's own floor and room go before its device's; the reasons to leave it out in their order; an accepted one has its id, profile, display name and the name of its area |
| Collect.TallyIsExact | src/freeathome2mqtt/model/compiler.py:311-350 | each counter is the number of channels left out for its reason |
| Collect.DevicesAreCounted | src/freeathome2mqtt/model/compiler.py:371-381 | devices_total and devices excluded count exactly those |
| Collect.CollectOneChannel | src/freeathome2mqtt/model/compiler.py:311-350 | one channel gets one verdict, in the order of the checks, and the tally counts it |
| Collect.CollectDeviceChannels | src/freeathome2mqtt/model/compiler.py:353-368 | a device's channels are visited in sorted order |
| Collect.CollectChannels | src/freeathome2mqtt/model/compiler.py:371-381 | the walk over sorted devices, and the counts of devices |
| Collect.ChannelsAreConserved | src/freeathome2mqtt/model/compiler.py:311-350 | channels_total counts every channel of every included device, and equals collected + orphaned + unknown + unsupported + excluded |
| Collect.CollectedAreSorted | src/freeathome2mqtt/model/compiler.py:353-381 | the collected channels are sorted and distinct, each matches its profile and comes from its place in the configuration, and none that qualifies is missing |
| Collect.ExclusionIsExact | src/freeathome2mqtt/model/compiler.py:316-319 | excluding an entity takes out that one and changes the verdict on no other channel |
| Collect.OrphansOnlyAdd | src/freeathome2mqtt/model/compiler.py:321-328 | letting orphans in re-judges only channels left out as orphans, and gives those no area |
| Collect.EntityIdsDiffer | src/freeathome2mqtt/model/compiler.py:316 | two entity ids are equal exactly if serial and channel are, given channel ids without underscore |
| Tables.AddressesAreCut | src/freeathome2mqtt/model/compiler.py:535-574 | a datapoint is written to at serial.channel.key and reported at serial/channel/key |
| Tables.AttributeKeptIff | src/freeathome2mqtt/model/compiler.py:479-530 | an attribute is kept exactly if an output has its pairing and its codec can be built, and what is raised otherwise |
| Tables.CommandKeptIff | src/freeathome2mqtt/model/compiler.py:493-566 | the same for commands and inputs |
| Tables.KeptInOrder | src/freeathome2mqtt/model/compiler.py:514-542 | kept attributes keep the order of the profile |
| Tables.AttributeRow | src/freeathome2mqtt/model/compiler.py:532-542 | an attribute's name, kind and initial value, decoded from the first output with its pairing |
| Tables.BuildAttributes | src/freeathome2mqtt/model/compiler.py:507-544 | the loop builds names, kinds, entries and initial values of the kept attributes, or raises for the first one at fault |
| Tables.BuildCommands | src/freeathome2mqtt/model/compiler.py:547-582 | the loop builds the egress entries of the kept commands, or raises for the first one at fault |
| Tables.ResolveAttributeDatapoint | src/freeathome2mqtt/model/compiler.py:479-490 | an output is found, or the attribute is wired to an input (P-01), or it is absent |
| Tables.ResolveCommandDatapoint | src/freeathome2mqtt/model/compiler.py:493-504 | an input is found, or the command is wired to an output (P-02), or it is absent |
| Tables.AttributeHasEntryIff | src/freeathome2mqtt/model/compiler.py:532-541 | an attribute has an ingress entry exactly if no later kept attribute reads the same pairing |
| Tables.EntriesAreGood | src/freeathome2mqtt/model/compiler.py:532-542 | an entry is in range, has its own bit and kind, and its initial value is the decoded value of that very datapoint |
| Tables.EntryOfAttribute | src/freeathome2mqtt/model/compiler.py:532-541 | an entry stands at the first output with its attribute's pairing and decodes with that attribute's codec |
| Tables.FaultIff | src/freeathome2mqtt/model/compiler.py:514-530 | attributes raise exactly if one is at fault, and never by the internal check on a matching channel |
| Tables.CommandFaultIff | src/freeathome2mqtt/model/compiler.py:552-566 | the same for commands |
| Tables.EgressIsGood | src/freeathome2mqtt/model/compiler.py:571-580 | an egress entry belongs to a kept command, writes to an input of its pairing, and its guess goes to the attribute it names |
| Tables.EgressEntryIff | src/freeathome2mqtt/model/compiler.py:552-580 | there is an entry exactly for the names of the kept commands, made from the last of that name |
| Tables.EgressBindingMeans | src/freeathome2mqtt/model/compiler.py:571-580 | an entry writes to the first input with the command's pairing, with the command's codec and flags |
| Compiler.OptionsOfChannel | src/freeathome2mqtt/model/compiler.py:387-399 | a channel's slug options come from its alias or name, its area, its channel id and its entity id |
| Compiler.EntityMeans | src/freeathome2mqtt/model/compiler.py:592-629 | an entity has its channel's id, its kept attributes, the topics below prefix and slug, an availability topic exactly if its profile is per device, and the profile's transform |
| Compiler.BuildEntity | src/freeathome2mqtt/model/compiler.py:585-629 | one channel extends all tables at the next index, or raises |
| Compiler.BuildModel | src/freeathome2mqtt/model/compiler.py:654-665 | the loop over the channels, with the number of entities created |
| Compiler.Compile | src/freeathome2mqtt/model/compiler.py:635-688 | collect, name, build |
| Compiler.CompileFailsIff | src/freeathome2mqtt/model/compiler.py:468-582 | a compilation fails exactly if two entities cannot both be named or a collected channel is miswired, and never by the internal check |
| Compiler.CompileErrorIsFirst | src/freeathome2mqtt/model/compiler.py:507-582 | the error is the slug collision, or else the first fault of the first channel at fault, attributes before commands |
| Compiler.StatsAddUp | src/freeathome2mqtt/model/compiler.py:654-678 | channels_total = entities_created + orphaned + unknown + unsupported + excluded by option |
| Compiler.IdsInvertIndicesIff | src/freeathome2mqtt/model/compiler.py:662 | `by_id` inverts the entity indices exactly if entity ids are distinct |
| Compiler.ResolvedSlugsAreGood | src/freeathome2mqtt/model/compiler.py:387-399 | channels with distinct ids get distinct slugs that are one topic level each, whenever the resolution succeeds |
| Compiler.EntityIdsAreDistinct | src/freeathome2mqtt/model/compiler.py:316 | they are, when channel ids have no underscore |
| Compiler.EntryFitsModel | src/freeathome2mqtt/model/compiler.py:535-542 | every ingress entry of the model is in range, with bit `1 << attr`, its kind, and the seeded value of its datapoint |
| Compiler.EntriesAreOwn | src/freeathome2mqtt/model/compiler.py:660 | no attribute has two ingress entries |
| Compiler.AttributeIsReadableIff | src/freeathome2mqtt/bus/reconcile.py:76-79 | `Reconciler._reads` has an address for an attribute exactly if no later attribute of its entity has the same pairing |
| Compiler.EgressAt | src/freeathome2mqtt/model/compiler.py:661 | a command stands in the table exactly if its own entity has it |
| Compiler.EgressFits | src/freeathome2mqtt/model/compiler.py:571-580 | every command's entity and optimistic attribute are in range and the ones it names |
| Compiler.WriteGoesTo | src/freeathome2mqtt/model/compiler.py:571-580 | an entry of the model writes to the first input, of its own channel, with the pairing of the last kept command of its name |
| Compiler.PathsTellDatapoints | src/freeathome2mqtt/model/compiler.py:574 | with ids free of dots, two entries have one path only if they are the same datapoint of the same channel |
| Compiler.TopicTableInvertsSlugs | src/freeathome2mqtt/model/compiler.py:663 | `by_topic` finds an entity by its slug and by nothing else |
| Compiler.CommandsReachTheirEntityIff | src/freeathome2mqtt/model/compiler.py:592-620 | an entity's command topics parse back to it exactly if topics are slugs or its slug is its slugified id |
| Compiler.AloneIsReachedIff | src/freeathome2mqtt/model/compiler.py:592-620 | with id topics an entity that is alone is reached exactly if its name and its id have one slug |
| Compiler.IdTopicMissesItsEntity | src/freeathome2mqtt/model/compiler.py:592-620 | with id topics an entity whose name and id are two different slugs is reached by none of its command topics |
| Compiler.CompiledTopicsAreApart | src/freeathome2mqtt/model/compiler.py:593-623 | availability topics and state topics never meet, within a model or across two |
| Compiler.CompiledIsConsistent | src/freeathome2mqtt/model/compiler.py:654-665 | a compiled model has what the resync relies on: inverse indices, aligned values, entries in range, distinct topics |
| Compiler.SeedShowsSnapshot | src/freeathome2mqtt/model/compiler.py:542 | a store seeded from a compilation shows, for every STATE attribute, what the SysAP held at the fetch |
| Compiler.ResyncEndsAtTheTruth | src/freeathome2mqtt/supervisor.py:1102-1112 | compile, seed, diff and replay end with every STATE attribute showing the full history |
| Compiler.BrokerEndsAtTheTruth | src/freeathome2mqtt/supervisor.py:1091-1124 | a clean bridge is clean again after the whole resync, and its values show the full history |
| Compiler.PlainIdsSuffice | src/freeathome2mqtt/model/compiler.py:316-358 | the SysAP's kind of ids gives distinct entity ids and distinct ingress keys |
| Split.DumpsShape | src/freeathome2mqtt/supervisor.py:341 | a part is its documents in order, in brackets, with one comma between neighbours and nothing else |
| Split.FitsMeans | src/freeathome2mqtt/supervisor.py:341-342 | documents fit exactly if they, the commas and the brackets are within the limit |
| Split.SplitDevicesPayload | src/freeathome2mqtt/supervisor.py:332-348 | the loop computes the greedy grouping and serialises each group |
| Split.GroupsPartition | src/freeathome2mqtt/supervisor.py:338-348 | no device is lost, repeated or moved |
| Split.GroupsFit | src/freeathome2mqtt/supervisor.py:338-348 | every part with two or more devices fits, and no part is empty |
| Split.GreedyStaysAhead | src/freeathome2mqtt/supervisor.py:339-347 | at every point of the loop any other acceptable cut of the same devices, even one whose current part began earlier, needs at least as many parts |
| Split.SplitIsOptimal | src/freeathome2mqtt/supervisor.py:332-348 | no order-preserving partition with that property has fewer parts |
| Codecs.DecodeMeans | src/freeathome2mqtt/model/codecs.py:175-180 | a percentage is read as that share of the way from warmest to coolest, rounded to a kelvin |
| Codecs.EncodeMeans | src/freeathome2mqtt/model/codecs.py:182-186 | a temperature within the bounds is sent as the nearest percentage |
| Codecs.EndsAreEnds | src/freeathome2mqtt/model/codecs.py:175-186 | beyond the ends the end is read or sent, and without a span zero is sent |
| Codecs.TemperatureRoundTrip | src/freeathome2mqtt/model/codecs.py:169-186 | a temperature sent and read back is off by abs(span)/200 + 1/2 at most, clamped to the bounds |
| Codecs.PercentRoundTrip | src/freeathome2mqtt/model/codecs.py:169-186 | with abs(span) > 100 every integer percentage survives the way to kelvin and back |
| Codecs.PercentsNeedHundredKelvin | src/freeathome2mqtt/model/codecs.py:169-186 | with whole-kelvin bounds all percentages survive exactly if the span is at least 100 K |
| Codecs.DecodeIsMonotone | src/freeathome2mqtt/model/codecs.py:175-180 | more percent is never warmer than less, or never colder, by the sign of the span |
| Codecs.ScaledDecodeMeans | src/freeathome2mqtt/model/codecs.py:155-166 | a value is read scaled and shifted, to within half a unit of the attribute's last decimal and with no more decimals |
| Codecs.ScaledEncodeMeans | src/freeathome2mqtt/model/codecs.py:155-166 | it is sent the other way round, with as many decimals |
| Codecs.ScaledRoundTrip | src/freeathome2mqtt/model/codecs.py:155-166 | a value sent and read back is off by (abs(factor) + 1)/2 units of the last decimal at most |
| Codecs.FineScaleIsExact | src/freeathome2mqtt/model/codecs.py:155-166 | with abs(factor) < 1 a value of the attribute's precision comes back unchanged |

## Left out

- Publishing.Publisher.BuildPayload: leaves out `last_changed`, a timestamp of the moment of publishing; payloads are compared as values, so the order of JSON keys is not modelled either.
- Naming.Slugify: Unicode lower-casing and NFKD are parameters; the two laws about already canonical text ask that they leave [a-z0-9_] alone.
- Codecs.TemperatureRoundTrip: IEEE floats are reals with round-half-even, and the decimal text between encoder and decoder is the number itself.
- Codecs.ScaledRoundTrip: exact arithmetic, as above; parsing and non-finite numbers are not modelled.
- Rest.RestClient.Request: one request alone; waiting for admission is in the limiter's own runs, and backoff sleeps and JSON parsing of the body are not modelled.
- Supervision.Supervisor.FinishResync: one resync at a time, and frames that arrive during its publishes are those of the buffer when it is drained; discovery, device availability and bridge topics published in between are not modelled.
- Reconcile.EveryGuessIsWatched: an attribute without a read address, which would raise in `read_one`, is excluded by the compiler's lemma and not modelled as a step.
- Availability.BridgeAvailability.Publish: the log records calls of the MQTT client, whether or not the client is connected; the broker's last will and the republish after a reconnect are not modelled.
- Tables.BuildAttributes: building a codec from a specification is a function of the channel; parameter lookup and float parsing of bounds are not modelled.
- Collect.CollectOneChannel: reading a function id and choosing a display name are functions given from outside.
- aiohttp, aiomqtt, TLS, files, zeroconf, the CLI, the metrics server, logging and metrics counters other than the compiler's tally: foreign calls without logic of the bridge.
- Settings, YAML and JSON schema loading, generated code tables and tooling: configuration.
- Home Assistant discovery payloads, `bridge/devices` entries, bridge API handlers, raw mode and the discovery store: assembly of strings and dictionaries without an invariant of its own.
- Decoding of command payloads, the order of commands in an object and the transforms' command side: one pass over a dictionary.
- `Publisher.run` across a resync, which stays bound to the first publisher object, and WebSocket reconnect and backoff: no liveness is claimed for them.
- Cancellation during shutdown and the order in which concurrent REST writes reach the SysAP: outside the model.
- Composite JSON values of attributes: attributes are scalars.
