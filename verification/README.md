# Verified models of the call platform's protocols

The platform has two servers. *open-switch* runs calls and media; *open-call* runs the business side (AI voices,
notifications, projections of switch events). A browser front end edits IVR flows and reports client events. This
project models the parts where several of these act at once, or where a small algorithm carries a large promise, and
proves what those parts are for.

| files | what they model |
|---|---|
| `ReadLoop`, `PcmStream`, `MediaServer`, `AudioProtocol` | AI audio on its way into a call: the provider reader, the hand-off channel, the sender, the socket, the switch's buffer, the answers |
| `Notification`, `NotificationRuns` | voice notifications worked off by any number of leased workers, with cancellation, crashes, lost replies and a deadline |
| `Graphs`, `IvrGraph`, `IvrValidator`, `IvrSimulator`, `IvrLayout` | IVR flows: validation, simulation, drawing |
| `Commands` | idempotent commands with replays, crashes and reconciliation |
| `CallEvents` | sequence numbers of a call's events under concurrent transactions |
| `SwitchEvents`, `SwitchEventRuns` | the inbox, projections, outbox, dead letters and delivery of switch events |
| `EventReporter` | the browser's bounded event queue with retries |
| `SplitSql`, `WavChunks`, `Recordings` | the SQL splitter, the check of uploaded prompts, the merge of recording rows |
| `Seqs` | small shared types and facts |

Each component is written in the form of its source: objects that change are classes whose methods are proved against
functions on plain states, loops are loops with invariants, and the functions are what the lemmas speak of. Concurrent
components are state machines: every database statement, socket write or turn of an event loop is one step, steps of
different actors interleave freely, and the lemmas hold in every reachable state of every run. What the outside world
answers (network, database, clock, provider, user) is a parameter of the step, and every answer is allowed, including
a database call or socket write that takes effect although its caller is told that it failed. Where a program does
several statements in a row, a lemma says that doing them undisturbed, as steps of a run, is what the whole method does
(`VisitIsARun`, `CallIsARun`, `CallbackIsARun`, `AppendIsARun`).

`dafny verify dfyconfig.toml` checks everything.

## Where the code does not do what one would expect

Each of these is proved, with the exact condition where there is one.

- A notification worker whose lease was taken over can still write the row, because the guard compares lease values and
  two workers may hold the same one. Run by run, leases fence exactly when no grant gives out a lease that another worker
  still works under (`NotificationRuns.LeasesFenceIffGrantsAreFresh`). They fence in all runs in which no two workers
  read the clock in the same microsecond for their leases, whatever the timing, and not in all runs
  (`NotificationRuns.LeasesFenceIffReadingsAreDistinct`). When readings may coincide, leases fence, and rise, exactly if
  every grant is carried out within the 90 seconds of its lease and no reply to a write-back that took effect is lost
  (`NotificationRuns.LeasesFenceIffTimelyAndHeard`, `NotificationRuns.LeasesRiseIffTimelyAndHeard`).
- Cancelling a notification that is already stopping can be overwritten by the worker that has it in hand, and then
  ends as failed. From every other state that is not terminal a cancel always wins
  (`NotificationRuns.CancelWinsIffNotStopping`).
- The deadline is checked when a step begins. A step is certain to end in stopping or a terminal state exactly if it
  reads the clock after the deadline or starts from such a state (`Notification.StepStopsIffLateOrStopped`); so a
  write-back that comes after the deadline is certain to only for notifications that already stood there, and from every
  other state it can leave the notification going on (`NotificationRuns.LateCommitStopsIffStopped`).
- The IVR validator looks targets, outcomes and node types up in JavaScript objects, so names that every object inherits
  pass. A flow that passes the validation can then end in "unknown type" (`IvrSimulator.InheritedTargetEndsUnknown`,
  `IvrSimulator.InheritedTypeEndsUnknown`) or at a missing node (`IvrSimulator.InheritedOutcomeIsFollowed`). Flows whose
  targets, outcomes and types are their own always end properly, and none of the three conditions can be dropped
  (`IvrSimulator.FlowsEndIffNothingIsWaived`).
- The audio reader's generation is a 64-bit number that wraps; the stream refuses a clear in that one case
  (`AudioProtocol.ClearRefusedOnlyOnWrap`, reached in `AudioProtocol.WrapIsReached`).
- Splitting a migration and splitting the joined result again agree, except when the first statement, and so the joined
  text, begins with a byte order mark (`SplitSql.SplitAgain`), as it does when a file begins with two of them
  (`SplitSql.TwoMarks`).
- The event reporter can be left with a queue and nothing to move it exactly if there is no way to send at all
  (`EventReporter.NeverStuckIffItCanFetch`).
- A command can answer "still running" for good. In every state of the system it does so exactly if the command has not
  ended and no caller may still end it: none is in the body, entitled to it or past it, and none is yet to mark a row
  that is still accepted (`Commands.StillRunsForGoodIffStuck`). A crash leads there, and so does a run in which nothing
  fails but a reconciliation comes before the command is marked as running (`Commands.ReconciledTooSoon`), a lost reply
  to the insertion or to that mark (`Commands.InsertionIsLost`, `Commands.ReplyIsLost`), and a result the database did
  not take, whose caller was told of success (`Commands.ResultIsLost`).
- Late audio of an interrupted response that names no response is played, as that of the next one, exactly if another
  response has been accepted since the caller last spoke (`ReadLoop.LateAudioIsHeardIffUnnamed`,
  `ReadLoop.UnnamedLateAudioIsPlayed`). Audio that names its response never is.
- A recording save whose status has been passed is not merged at all, so a longer duration it brings is lost
  (`Recordings.LateLongerSaveIsLost`). The longest duration of all saves is kept exactly if every save that comes
  after one of a higher rank is matched by one at least as long that does not
  (`Recordings.LongestIsKeptIffLostOnesAreMatched`).

## Model

| member | source | states |
|---|---|---|
| ReadLoop.Session.Handle | open-call/internal/aibot/realtime/openai.go:172-257 | one provider event changes the loop's variables and has an effect exactly as the step function says |
| ReadLoop.InterruptedNeverReplays | open-call/internal/aibot/realtime/openai.go:198-236 | over all event sequences, a response that was playing when the caller began to speak is never emitted again, under its name or as the response held (a delta that names none counts as the response held) |
| ReadLoop.LateAudioIsHeardIffUnnamed | open-call/internal/aibot/realtime/openai.go:217-226 | late audio of an interrupted response, named or not, is emitted if and only if it names no response and another one has been accepted since |
| ReadLoop.UnnamedLateAudioIsPlayed | open-call/internal/aibot/realtime/openai.go:217-226 | a sequence in which that happens |
| ReadLoop.SilentAfterSpeech | open-call/internal/aibot/realtime/openai.go:198-249 | between the start of speech and the next accepted response audio and ends of audio do nothing, whatever they name |
| ReadLoop.AcceptedResponseIsHeard | open-call/internal/aibot/realtime/openai.go:207-249 | until the caller speaks or another response is accepted, audio that names the accepted response or none is emitted under 1 plus the clears so far (modulo 2^64), its end finishes that generation, audio that names another response does nothing, and audio that cannot be decoded fails |
| ReadLoop.UnannouncedResponseIsHeard | open-call/internal/aibot/realtime/openai.go:217-249 | the same before any response has been accepted, for the first response that audio names, in generation 1 |
| ReadLoop.ClearsAtSpeechAndNewResponses | open-call/internal/aibot/realtime/openai.go:198-216 | the loop clears, to the next generation, exactly when the caller begins to speak and when a response is announced that has an id and was never interrupted |
| ReadLoop.OneResponsePerGeneration | open-call/internal/aibot/realtime/openai.go:207-236 | two emissions of one generation that name a response name the same one (fewer than 2^64 events apart) |
| ReadLoop.GenerationCountsClears | open-call/internal/aibot/realtime/openai.go:203-213 | from any point to any later one the generation moves by the number of clears, modulo 2^64 |
| ReadLoop.Cut | open-call/internal/aibot/realtime/openai.go:238-244 | the two nested chunking loops hand over the blocks of the specification |
| ReadLoop.HandedPreserves | open-call/internal/aibot/realtime/openai.go:123-135 | the blocks put together are the delta, and each is non-empty, even and at most 100 ms long |
| PcmStream.PCMStream.SendOnce | open-call/internal/integration/switchapi/application_media.go:89-98 | a round of Send writes the frame under the lock exactly if the generation is still current |
| PcmStream.PCMStream.Send | open-call/internal/integration/switchapi/application_media.go:80-115 | the retry loop, with other threads clearing between rounds, does what the rounds of the specification do |
| PcmStream.OneFramePerPushback | open-call/internal/integration/switchapi/application_media.go:88-114 | stop and wait: every frame but the last was pushed back before the next was written |
| PcmStream.NoFrameAfterClear | open-call/internal/integration/switchapi/application_media.go:89-95 | once a clear has passed the frame's generation Send writes nothing more and ends |
| PcmStream.PCMStream.ClearTo | open-call/internal/integration/switchapi/application_media.go:116-125 | a clear is refused unless it raises the generation; otherwise it raises it and is written |
| PcmStream.PCMStream.FinishAt | open-call/internal/integration/switchapi/application_media.go:126-134 | a finish is written exactly for the current generation |
| MediaServer.AudioOutput.Write | open-switch/internal/layers/media/application.go:35-73 | stale, finished, full and accepted writes, and what each leaves behind |
| MediaServer.AcceptedWriteKeepsBound | open-switch/internal/layers/media/application.go:47-71 | after an accepted write the 200 ms bound holds exactly if the queue itself fits, and certainly if the resampler gives out no more than it was given |
| MediaServer.AudioOutput.Clear | open-switch/internal/layers/media/application.go:75-87 | a clear must raise the generation and empties the buffer |
| MediaServer.AudioOutput.Finish | open-switch/internal/layers/media/application.go:89-110 | a finish must name the current generation, empties the resampler, and fails if that does not fit |
| MediaServer.AudioOutput.ReadMediaOutput | open-switch/internal/app/http/application_media.go:72-120 | the socket loop over any messages: acknowledgements, blocks taken, and where it stops |
| MediaServer.OneAckPerFrame | open-switch/internal/app/http/application_media.go:78-100 | a loop that goes on has sent one acknowledgement per frame, and as many "accepted" as it has taken blocks |
| MediaServer.AckTellsTheVerdict | open-switch/internal/app/http/application_media.go:78-100 | "accepted" means taken, "pushback" and "discarded" that nothing changed, discarded exactly for another generation; a malformed block or a closed session ends the loop without an answer |
| AudioProtocol.Kept | open-call/internal/integration/switchapi/application_media.go:80-153 | every step of reader, sender, receiver and switch keeps the protocol's invariant |
| AudioProtocol.SenderWritesOrDrops | open-call/internal/integration/switchapi/application_media.go:88-134 | the sender drops what belongs to a passed generation and writes the rest, frame or finish, and then waits for the answer to a frame |
| AudioProtocol.ThreadsStopWhenTheyFail | open-call/internal/aibot/realtime/openai.go:113-169 | reader and sender stop exactly when a step of theirs goes wrong (a failing event, a full channel, a refused or broken write) or when told to |
| AudioProtocol.ThreadsGoOn | open-call/internal/integration/switchapi/application_media.go:80-153 | in every state of a run, a reader or sender that is up has its next step, once it has an event, an item or an answer |
| AudioProtocol.ExactlyOnceInOrder | open-call/internal/integration/switchapi/application_media.go:80-153 | in every run, what the switch accepts of a generation is a prefix of the chunks queued for it, and its bytes a prefix of the audio the provider was allowed to play in it: in order, no gap, no duplicate |
| AudioProtocol.OneOutstanding | open-call/internal/integration/switchapi/application_media.go:88-114 | at most one frame or answer is under way, the receiver's mailbox included |
| AudioProtocol.NothingLost | open-call/internal/integration/switchapi/application_media.go:80-153 | of the current generation the switch has taken exactly what the channel gave the sender, save the item in hand |
| AudioProtocol.CutShortOnlyByClear | open-call/internal/aibot/realtime/openai.go:113-169 | in every state of a run, the switch has taken of each generation exactly what the channel gave the sender, save the item in hand, unless the clear that ends the generation was written, or the reader failed after raising the counter |
| AudioProtocol.AllIsTakenUnlessCleared | open-call/internal/aibot/realtime/openai.go:113-169 | with a running reader that has nothing left to queue and a sender that has caught up, all audio the provider was allowed to play has been taken, or the clear that ends its generation was written |
| AudioProtocol.BufferStaysBounded | open-switch/internal/layers/media/application.go:35-110 | in every run with such a resampler the switch's buffer stays within 200 ms |
| AudioProtocol.WireOrder | open-call/internal/integration/switchapi/application_media.go:89-134 | every frame and finish carries 1 plus the number of clears written before it, every clear the next number |
| AudioProtocol.ClearRefusedOnlyOnWrap | open-call/internal/integration/switchapi/application_media.go:116-125 | driven by the reader, "generation must increase" is hit exactly when the 64-bit counter wraps |
| AudioProtocol.WrapIsReached | open-call/internal/integration/switchapi/application_media.go:116-125 | a run that reaches the last generation, where the reader's next clear is refused and the reader ends |
| AudioProtocol.FinishAfterAll | open-call/internal/aibot/realtime/openai.go:136-165 | a finish goes out only after every chunk queued before it for its generation was accepted |
| AudioProtocol.ServerNeverStale | open-switch/internal/app/http/application_media.go:78-113 | the switch never meets a stale frame, clear or finish, refuses frames only after a finish, on closing or when resampling fails, and a finish only when resampling fails or its rest does not fit |
| Notification.VoiceNotification.Step | open-call/internal/notification/service.go:133-207 | one step of a notification for any answers of the switch, with the fields it leaves behind when it ends in an error |
| Notification.VisitTask | open-call/internal/notification/service.go:105-130 | lease, reload, step, settle and write back of one notification, undisturbed, for every way its database calls may end |
| Notification.TickTasks | open-call/internal/notification/service.go:96-132 | the loop visits the picked notifications one by one until the worker is told to stop, and no other changes |
| Notification.NotificationRow.Cancel | open-call/internal/notification/service.go:74-80 | a cancel sets every notification that is not terminal to stopping with the error canceled |
| Notification.NotificationRow.Lease | open-call/internal/notification/service.go:108-112 | the conditional update that takes the lease, also when its reply is lost |
| Notification.NotificationRow.WriteBack | open-call/internal/notification/service.go:125-130 | the conditional write-back, and the release whenever it reports no row, also when it took effect and the reply was lost |
| Notification.StepFollowsEdge | open-call/internal/notification/service.go:117-207 | every step follows an edge of the state machine; terminal ones do not change; a canceled one can only become canceled |
| Notification.StepSucceeds | open-call/internal/notification/service.go:133-207 | by state and answers, what a step without an error has asked of the switch and the whole task it leaves |
| Notification.StepFailsWithItsLastRequest | open-call/internal/notification/service.go:133-207 | a step stops at the first request that goes wrong, ends in its error, and leaves the task as it was but for a deadline or a finished playback it has noticed |
| Notification.ErrorsStop | open-call/internal/notification/service.go:117-124 | a step that ends in an error leaves the task stopping with the first error it ever had, and its leg and playback, unless the worker is shutting down |
| NotificationRuns.StoredTaskClimbs | open-call/internal/notification/service.go:96-207 | in every run the stored rank never falls, terminal states are absorbing, and the task is backed by what the switch has told: its leg was dialed, its playback was started on that very leg and has finished, and a terminal one had its call reported over |
| NotificationRuns.StoredTaskFollowsPath | open-call/internal/notification/service.go:96-207 | every single change of the stored row is a cancel or an edge of the step machine |
| NotificationRuns.RequestsAreWarranted | open-call/internal/notification/service.go:140-206 | in every run workers play only on legs that were dialed, ask only for playbacks that were started on that leg, and hang up normally only after the task's playback has finished |
| NotificationRuns.VisitIsARun | open-call/internal/notification/service.go:105-130 | what an undisturbed visit does to the row is what its statements do as single steps of a run, for all clock readings and fates of its database calls |
| NotificationRuns.FencedOffIffKeyless | open-call/internal/notification/service.go:125-130 | however a worker goes on with its visit it cannot change the row, exactly if the row does not carry its lease |
| NotificationRuns.LeasesFenceIffGrantsAreFresh | open-call/internal/notification/service.go:108-130 | in each run, superseded workers are fenced off at every moment if and only if no grant gives out a lease another worker still works under |
| NotificationRuns.DistinctReadingsAreFresh | open-call/internal/notification/service.go:108-109 | if no two workers read the clock in the same microsecond, every grant is fresh, whatever the timing, crashes and lost replies |
| NotificationRuns.LeasesFenceIffReadingsAreDistinct | open-call/internal/notification/service.go:108-130 | leases fence in all runs with distinct readings, and not in all runs |
| NotificationRuns.LeasesFenceIffTimelyAndHeard | open-call/internal/notification/service.go:108-130 | with readings that may coincide, leases fence in all runs whose grants are carried out within d, if and only if d is at most the 90 seconds of a lease and no reply to a write-back is lost |
| NotificationRuns.LeasesRiseIffTimelyAndHeard | open-call/internal/notification/service.go:108-109 | the same condition decides whether every lease is strictly greater than those other workers still work under |
| NotificationRuns.CancelWins | open-call/internal/notification/service.go:74-80 | a cancel issued while the notification is neither stopping nor terminal wins over every step in flight, in every run |
| NotificationRuns.CancelWinsIffNotStopping | open-call/internal/notification/service.go:119-127 | among the states that are not terminal, a cancel is certain to win from all but stopping |
| NotificationRuns.LateWorkStops | open-call/internal/notification/service.go:137-140 | a step that read the clock after the deadline lands in stopping or a terminal state when it is stored |
| Notification.StepStopsIffLateOrStopped | open-call/internal/notification/service.go:133-207 | a step ends in stopping or a terminal state whatever it is answered, if and only if it reads the clock after the deadline or starts from such a state |
| NotificationRuns.LateCommitStopsIffStopped | open-call/internal/notification/service.go:125-140 | what is written back after the deadline is certain to be stopping or terminal, over all runs, if and only if the step started from such a state |
| IvrGraph.EdgesAreLeads | open-call-web/shared/components/ivr/ivr-model.js:16-28 | the edges of the flow are exactly the fields that, by the type of the node, lead from it to something that can be looked up |
| IvrValidator.Walker.Walk | open-call-web/shared/components/ivr/ivr-model.js:76-82 | the recursive walk ends on every finite graph, keeps what it knows, and leaves every node it was called on visited |
| IvrValidator.WalkFromStart | open-call-web/shared/components/ivr/ivr-model.js:74-84 | a cycle is reported exactly if one is reachable from the start, and the visited set is exactly what is reachable |
| IvrValidator.ValidateIVR | open-call-web/shared/components/ivr/ivr-model.js:31-87 | reports exactly the issues there are: of the document, the faults every node has, and of the graph, each once |
| IvrValidator.FaultsAreFound | open-call-web/shared/components/ivr/ivr-model.js:38-73 | the pass over a node finds a fault if and only if the node has it, each fault stated by itself in terms of the node's fields, the queues and the assets |
| IvrValidator.FaultlessIffWellFormed | open-call-web/shared/components/ivr/ivr-model.js:38-73 | a node has no fault if and only if it is as its type asks: an uploaded file, 1 to 120 seconds, keys of one character, 0 to 5 retries, texts that are not blank, known queues, targets that can be looked up |
| IvrValidator.PublishableIffSound | open-call-web/shared/components/ivr/ivr-model.js:31-87 | no issues if and only if the start is a node, there are at most 100 nodes, all well-formed and reachable, and there is no cycle |
| IvrValidator.PublishableMeans | open-call-web/shared/components/ivr/ivr-model.js:31-87 | no issues means: a start that is a node, 1 to 100 nodes, all complete and reachable, no cycle |
| IvrSimulator.SimulateIVR | open-call-web/shared/components/ivr/ivr-model.js:90-135 | the simulation loop does what its passes say, for any limit of steps |
| IvrSimulator.SimulationFollowsTheTrial | open-call-web/shared/components/ivr/ivr-model.js:90-134 | the path begins at the start and every visit leads to the next by the opening hours, the queue, the outcome, or the key it finds (counting keys used and wrong keys along the path), and the result says why the last one ends |
| IvrSimulator.TrialShowsOneThing | open-call-web/shared/components/ivr/ivr-model.js:90-134 | there is only one path and one result of that kind, so the simulation shows exactly that |
| IvrSimulator.ChoiceIsTheEntry | open-call-web/shared/components/ivr/ivr-model.js:105-122 | a key or outcome chooses the first own entry of that name, else what is inherited under it |
| IvrSimulator.PathFollowsBranches | open-call-web/shared/components/ivr/ivr-model.js:93-133 | every step of the path stays or follows a branch of its node |
| IvrSimulator.PublishableFlowsEnd | open-call-web/shared/components/ivr/ivr-model.js:31-135 | a flow without issues and without inherited names, nodes plus keys within the limit, ends in a queue, hang-up, voicemail or undeclared outcome, on a path no longer than nodes plus keys |
| IvrSimulator.InheritedTargetEndsUnknown | open-call-web/shared/components/ivr/ivr-model.js:72-133 | a branch to any inherited name passes the validation, and every simulation then ends in an unknown type |
| IvrSimulator.ShortPublishableFlowsEnd | open-call-web/shared/components/ivr/ivr-model.js:90-135 | the same for the program's limit of 100 steps |
| IvrSimulator.InheritedTypeEndsUnknown | open-call-web/shared/components/ivr/ivr-model.js:39-39 | a node whose type is an inherited name passes the validation, and every simulation ends in an unknown type |
| IvrSimulator.InheritedOutcomeIsFollowed | open-call-web/shared/components/ivr/ivr-model.js:102-107 | a flow passes the validation, and an undeclared outcome that is an inherited name leads to a missing node instead of being reported |
| IvrSimulator.FlowsEndIffNothingIsWaived | open-call-web/shared/components/ivr/ivr-model.js:31-135 | own targets, own outcomes and own types together make every publishable flow end properly, and without any one of them some flow does not |
| IvrLayout.SearchIsExact | open-call-web/shared/components/ivr/ivr-model.js:140-145 | a finished breadth-first search has found exactly what is reachable, each at its shortest distance |
| IvrLayout.Levels | open-call-web/shared/components/ivr/ivr-model.js:140-145 | the search of the layout gives every reachable node its shortest distance from the start |
| IvrLayout.Rank | open-call-web/shared/components/ivr/ivr-model.js:140-146 | every other node gets a row of its own, directly below all rows assigned before |
| IvrLayout.LayoutIVR | open-call-web/shared/components/ivr/ivr-model.js:138-159 | nodes stand where their usable hand-placed entry says (kept off the edges) or at their automatic place, all lie inside a canvas no wider and no higher than they or the rows ask for, with the margins, and the lines drawn are those of `Drawn` |
| IvrLayout.PlacedIsTheLast | open-call-web/shared/components/ivr/ivr-model.js:152-156 | a hand-placed entry counts exactly if it is the last one for its node with two finite coordinates |
| IvrLayout.LinesAreEdges | open-call-web/shared/components/ivr/ivr-model.js:159-159 | a line is drawn for exactly the edges the validator follows, and for branches to a node without a name, which it does not follow |
| IvrLayout.AutomaticLayoutIsClear | open-call-web/shared/components/ivr/ivr-model.js:147-151 | without hand-placed nodes any two nodes are at least 210 apart across or 125 down |
| IvrLayout.RowsAreCentred | open-call-web/shared/components/ivr/ivr-model.js:151-151 | the places of a row are 210 apart in the order of the nodes and centred, and levels are 125 apart |
| Commands.CommandTable.Accept | open-switch/internal/store/commands.go:37-74 | an existing key is returned or refused by its hash, a free one inserted |
| Commands.CommandTable.Complete | open-switch/internal/store/commands.go:88-100 | only accepted, running and unknown commands are completed |
| Commands.CommandTable.ReconcileStale | open-switch/internal/store/commands.go:135-149 | exactly the commands that were stale when the pass began become unknown |
| Commands.SelectsTheStale | open-switch/internal/store/commands.go:135-149 | a pass selects exactly the accepted and running commands not written since the cutoff |
| Commands.CommandTable.RunIdempotentMutation | open-switch/internal/layers/control/command_idempotency.go:11-47 | a whole call, statement by statement, for every fate of its database calls |
| Commands.CallMeans | open-switch/internal/layers/control/command_idempotency.go:11-47 | when an undisturbed call runs the body, what it replies and exactly what row it leaves, for every fate of its database calls |
| Commands.CallIsARun | open-switch/internal/layers/control/command_idempotency.go:11-47 | a call that nothing interrupts leaves, replies and enters the body as its statements do as single steps of a run |
| Commands.RunsAtMostOnce | open-switch/internal/layers/control/command_idempotency.go:11-47 | for all interleavings of callers, crashes and reconciliations the body is entered at most once per key |
| Commands.BodyServesTheStoredRequest | open-switch/internal/store/commands.go:40-47 | a caller in the body is there for the request hash the key belongs to, for good |
| Commands.DifferentRequestIsRefused | open-switch/internal/store/commands.go:44-46 | once a key is taken, a different request under it is always refused |
| Commands.EndedIsFinal | open-switch/internal/store/commands.go:93-99 | succeeded and failed commands never change |
| Commands.RepliesAreTrue | open-switch/internal/layers/control/command_idempotency.go:20-46 | success is replied only if the one run returned nil, failure only if it failed with that code, a refusal exactly for another hash |
| Commands.ResultIsReplayed | open-switch/internal/layers/control/command_idempotency.go:20-30 | a result the database took is what every later call with the key is told, whatever reconciliation did |
| Commands.StillRunsForGoodIffStuck | open-switch/internal/layers/control/command_idempotency.go:20-46 | in any state, every later repetition of a request is told "still running", however the run goes on, if and only if its command has not ended and no caller may still end it |
| Commands.ReconciledTooSoon | open-switch/internal/store/commands.go:76-86 | a run without a crash or a failed reply gets there: the stale command is reconciled before its caller marks it as running |
| Commands.ResultIsLost | open-switch/internal/layers/control/command_idempotency.go:44-45 | a run gets there whose body succeeded and whose caller was told so |
| Commands.ReplyIsLost | open-switch/internal/layers/control/command_idempotency.go:33-35 | a lost reply to the mark, or a crash before it, gets there |
| Commands.InsertionIsLost | open-switch/internal/layers/control/command_idempotency.go:16-19 | a lost reply to the insertion gets there |
| CallEvents.Store.Append | open-switch/internal/store/call_events.go:50-115 | an append takes effect as a whole or not at all, with the next number of its call, or 0 for none |
| CallEvents.AppendIsARun | open-switch/internal/store/call_events.go:73-90 | an append that nothing interrupts leaves what its statements do as single steps: the next number under the next id, one dispatch, nothing else |
| CallEvents.UndoneLeavesNoTrace | open-switch/internal/store/call_events.go:73-90 | an append that fails leaves its transaction as it was, but for an id used up |
| CallEvents.Kept | open-switch/internal/store/call_events.go:72-93 | every step of concurrent transactions keeps the numbering of every call |
| CallEvents.NumbersAreExact | open-switch/internal/store/call_events.go:72-93 | the committed events of a call carry exactly the numbers 1 to its counter, each once |
| CallEvents.IdsFollowNumbers | open-switch/internal/store/call_events.go:70-93 | within a call, ids and numbers order the events alike |
| CallEvents.OneDispatchEach | open-switch/internal/store/call_events.go:86-89 | every committed event has exactly one staged dispatch, and no dispatch lacks its event |
| SwitchEvents.SwitchStore.CommitSwitchEvent | open-call/internal/app/switch_events.go:87-132 | the statements of the transaction commit the new event with all its rows, leave a known one alone, or change nothing |
| SwitchEvents.AdmitLeaves | open-call/internal/app/switch_events.go:87-132 | what a committed event leaves in each table, and that all other rows stay |
| SwitchEvents.CommitsExactlyNewEvents | open-call/internal/app/switch_events.go:87-132 | a transaction takes effect exactly if it is not aborted and brings a new event that can be projected, and its caller is told so exactly if it hears of a commit and the event is in the inbox |
| SwitchEvents.CommitNeedsEveryStatement | open-call/internal/app/switch_events.go:87-132 | an event goes in only if every statement of the transaction works, and none takes effect by itself |
| SwitchEvents.SwitchStore.RecordProjectionFailure | open-call/internal/app/switch_events.go:57-76 | failures are counted per event, the twelfth buries it, and the caller learns that only if it gets the reply |
| SwitchEvents.SwitchStore.SwitchEventHTTP | open-call/internal/app/switch_events_http.go:18-54 | one callback: what it leaves in the tables and replies, for every fate of its statements |
| SwitchEvents.RepliesMeanWhatTheySay | open-call/internal/app/switch_events_http.go:25-52 | accepted, dead letter and error, each exactly when, and how the failure is counted |
| SwitchEvents.SwitchStore.SelectRows | open-call/internal/app/switch_events.go:137-141 | a pass takes the at most 100 oldest undelivered rows it may touch |
| SwitchEvents.SwitchStore.DeliverSwitchEvents | open-call/internal/app/switch_events.go:135-156 | a pass publishes its rows in order, and marks all of them or none |
| SwitchEventRuns.ProjectedExactlyOnce | open-call/internal/app/switch_events.go:87-132 | for any order, duplication and aborting of deliveries, each committed event is projected exactly once and has exactly one outbox row |
| SwitchEventRuns.CommittedIsWhatArrived | open-call/internal/app/switch_events.go:87-132 | every outbox row committed in a run announces an event that came in: its kind and agent, its call exactly if it is not for an agent alone, its numbers under their three keys and its own values under all others; and a new agent row tells the same event's agent, state, reason and time |
| SwitchEventRuns.OtherAgentsStay | open-call/internal/app/switch_events.go:213-226 | agent rows change in no other way |
| SwitchEventRuns.WatermarkIsTheMaximum | open-call/internal/app/switch_events.go:127-130 | the cursor is the maximum of its first value and all committed ids |
| SwitchEventRuns.OrderDoesNotMatter | open-call/internal/app/switch_events.go:87-132 | two schedules that commit the same events of a feed agree on inbox, outbox payloads, cursor and agent rows |
| SwitchEventRuns.AcceptedIsStored | open-call/internal/app/switch_events_http.go:34-52 | a reply that is not a dead letter means that the event is in the inbox for good, and a requested business action succeeded in that call |
| SwitchEventRuns.TwelveFailuresBury | open-call/internal/app/switch_events.go:51-76 | a check that can read the table acknowledges without projecting exactly if twelve failures have been recorded since the event's last commit |
| SwitchEventRuns.TwelfthFailureIsToldSo | open-call/internal/app/switch_events.go:64-76 | the callback that records a failure is told "dead letter" exactly if that makes at least twelve since the event's last commit and the database says so, otherwise of an error |
| SwitchEventRuns.DeadLetterMeansTwelveFailures | open-call/internal/app/switch_events_http.go:30-46 | every dead-letter reply of a run is given after at least twelve recorded failures since the event's last commit |
| SwitchEventRuns.BuriedForever | open-call/internal/app/switch_events_http.go:30-33 | a buried event is never projected, as long as the failure table can be read |
| SwitchEventRuns.DeliveredWasPublished | open-call/internal/app/switch_events.go:142-153 | no row is marked delivered before the hub was given its payload |
| SwitchEventRuns.PassTakesOldest | open-call/internal/app/switch_events.go:135-156 | a pass that commits takes exactly min(100, n) rows off the undelivered; one that does not leaves every mark |
| SwitchEventRuns.PassDelivers | open-call/internal/app/switch_events.go:135-156 | a pass that gets through its rows and commits has published them and marks exactly them |
| SwitchEventRuns.CallbackIsARun | open-call/internal/app/switch_events_http.go:25-52 | a callback that nothing interrupts leaves and replies what its statements do as single steps of a run |
| EventReporter.EventReporter.ReportEvent | open-call-web/shared/observability.js:52-67 | a report joins the queue, drops the oldest beyond 200, and flushes or schedules |
| EventReporter.EventReporter.StartFlush | open-call-web/shared/observability.js:85-95 | what a flush does before it sends |
| EventReporter.EventReporter.EndFlush | open-call-web/shared/observability.js:112-124 | success resets the backoff; failure puts the batch back in front, cuts at 200, retries later |
| EventReporter.NothingVanishes | open-call-web/shared/observability.js:52-125 | in every run the reported events are the disjoint union of acknowledged, in flight, queued and dropped; acknowledged ones are in report order, and so is in flight followed by queue |
| EventReporter.BoundsHold | open-call-web/shared/observability.js:52-125 | at most 200 queued, one batch of at most 20 in flight, backoff min(60000, 1000 * 2^k) after k failures |
| EventReporter.AnswersAreFollowedUp | open-call-web/shared/observability.js:112-124 | in every run, a failed batch goes back in front and is retried after the backoff, a success sends the backlog at once; a pending timer stays |
| EventReporter.SendsBeginWhenTheyCan | open-call-web/shared/observability.js:52-95 | in every run, a send begins exactly with a flush, a timer that fires or a report that makes 20, when none is under way and there is a queue, a way to send and a login; it carries the 20 oldest events or all; without a login a timer waits |
| EventReporter.DropsOnlyWhenFull | open-call-web/shared/observability.js:64-118 | events are given up only when the queue is full |
| EventReporter.NeverStuckIffItCanFetch | open-call-web/shared/observability.js:69-125 | a non-empty queue always has a timer or a send in progress, if and only if there is a way to send |
| SplitSql.SplitSQL | open-call/internal/store/migrate/migrate.go:157-195 | the scanner computes: drop comments, cut at semicolons outside quotes, trim, drop what is empty |
| SplitSql.CutLosesNothing | open-call/internal/store/migrate/migrate.go:182-188 | the pieces joined by semicolons are the text |
| SplitSql.StripDropsComment | open-call/internal/store/migrate/migrate.go:166-171 | a comment goes, up to the end of its line, and what is before it stays |
| SplitSql.StrippedIsCommentless | open-call/internal/store/migrate/migrate.go:166-171 | no comment outside quotes is left, nor does one arise |
| SplitSql.QuotesEnclose | open-call/internal/store/migrate/migrate.go:172-181 | a stretch in single or double quotes stays whole, semicolons, dashes and the other quote included, and what follows is read as if it stood alone |
| SplitSql.PlainIsText | open-call/internal/store/migrate/migrate.go:166-189 | no character but quotes, semicolons and dashes is special |
| SplitSql.TrimDropsSpaces | open-call/internal/store/migrate/migrate.go:183-194 | trimming takes all white space off both ends and nothing else |
| SplitSql.SplitAgain | open-call/internal/store/migrate/migrate.go:157-195 | splitting the result joined line by line gives it back, if and only if the joined text does not begin with a byte order mark |
| SplitSql.TwoMarks | open-call/internal/store/migrate/migrate.go:157-158 | with two marks before any statement, the first split keeps one and the second split drops it |
| WavChunks.ValidPromptWAV | open-switch/internal/app/http/ivr_assets.go:117-142 | ends in bounds on all bytes and accepts exactly: 44 bytes or more, RIFF and WAVE marks, a list of chunks whose fmt chunks have 16 bytes or more, the last being 16-bit mono PCM at 8, 16 or 48 kHz, and whose last data chunk is non-empty and even |
| WavChunks.ParseIsExact | open-switch/internal/app/http/ivr_assets.go:122-140 | bytes are read as a list of chunks exactly if they are its rendering, padding included |
| WavChunks.RenderedIsJudgedByItsChunks | open-switch/internal/app/http/ivr_assets.go:122-140 | a file rendered from chunks is accepted exactly if it has 44 bytes, bears the marks, and its chunks make a prompt |
| WavChunks.JudgeIsVerdict | open-switch/internal/app/http/ivr_assets.go:127-141 | the flags of the walk decide by the last fmt and the last data chunk |
| WavChunks.PlayableByItsBytes | open-switch/internal/app/http/ivr_assets.go:131-135 | the fmt chunk says format 1, one channel, 8000, 16000 or 48000 Hz and 16 bits, byte by byte, low byte first |
| Recordings.RecordingTable.Save | open-switch/internal/layers/cccore/facts.go:47-89 | a save inserts or merges under the guard, and publishes the merged row |
| Recordings.StatusIsTheMaximum | open-switch/internal/layers/cccore/facts.go:67-67 | whatever the order of the saves, the row stands at the highest rank any of them had |
| Recordings.AcceptedIffInRank | open-switch/internal/layers/cccore/facts.go:67-67 | a save is merged if and only if no earlier save, merged or not, has a higher rank |
| Recordings.OrderDoesNotMatter | open-switch/internal/layers/cccore/facts.go:67-67 | two orders or repetitions of the same saves agree on the status |
| Recordings.NothingGoesBack | open-switch/internal/layers/cccore/facts.go:55-64 | duration, size and end never go back, a reason and the legs' tracks never get lost |
| Recordings.AcceptedSavesDecide | open-switch/internal/layers/cccore/facts.go:55-64 | duration and size are the greatest, the reason the first that is not empty, among the accepted saves |
| Recordings.LastSaveDecidesTheRest | open-switch/internal/layers/cccore/facts.go:47-67 | call and time of creation are those of the first save, and every column that is not accumulated is that of the last accepted one, with the defaults filled in |
| Recordings.LatestEndIsKept | open-switch/internal/layers/cccore/facts.go:55-64 | the end is the latest among the accepted saves that have one |
| Recordings.LastTrackIsKept | open-switch/internal/layers/cccore/facts.go:55-64 | a leg's track is that of the last accepted save that brought one |
| Recordings.LongestIsKeptIffLostOnesAreMatched | open-switch/internal/layers/cccore/facts.go:55-67 | the longest duration of all saves is kept if and only if every save that comes after one of a higher rank is matched by one, at least as long, that does not |
| Recordings.RisingSavesKeepTheLongest | open-switch/internal/layers/cccore/facts.go:55-67 | saves whose status never falls back are all merged, so the longest duration is kept |
| Recordings.LateLongerSaveIsLost | open-switch/internal/layers/cccore/facts.go:67-67 | a save whose status has been passed is not merged, and its longer duration is lost |

## Left out

- AudioProtocol.ServerNeverStale: the switch's mixer, which drains the buffer and reports the end of playback, is only a step that takes samples off the queue, because the protocol needs no more of it.
- MediaServer.AudioOutput.Write: the resampler is a parameter (how many samples it gives out, whether it fails), and the check for a changed sample rate is left out, because a session has one rate.
- PcmStream.PCMStream.Send: the timers of 10 seconds and 20 ms are not modelled; in the protocol a sender that gives up is one that stops.
- ReadLoop.OneResponsePerGeneration: holds for events fewer than 2^64 apart, because the generation wraps.
- NotificationRuns.LeasesFenceIffTimelyAndHeard: times are whole microseconds, which is all the stored columns keep (`open-call/internal/store/migrate/sql/000004_voice_notifications.sql:12-13`); a finer reading counts as the one stored for it. All workers read one clock; clocks that differ between machines are not modelled. The statements about fresh grants do not depend on clocks.
- NotificationRuns.StoredTaskClimbs: the ownership check before a cancel is not modelled; the reload is one step.
- Notification.VoiceNotification.Step: the call, destination, trunk and asset of a notification never change and are left out of its requests.
- Notification.TickTasks: the query that picks notifications is left out; the loop works on whatever it is given.
- IvrSimulator.PublishableFlowsEnd: one way for a single flow. That each condition is needed is proved (`IvrSimulator.FlowsEndIffNothingIsWaived`), but a given flow with inherited names fails only if some combination of business outcomes, opening hours and keys gets there.
- IvrSimulator.SimulateIVR: texts of events and labels of branches are left out; fields are taken to have the types the editor writes.
- IvrLayout.LayoutIVR: the labels of edges, a node named `__proto__`, and rounding of floating-point numbers are not modelled.
- Commands.CommandTable.RunIdempotentMutation: events of commands, and a service without a command store, which behaves like a call without a key. Rows are looked up by the idempotency key instead of the id that belongs to it.
- CallEvents.NumbersAreExact: deleting calls and events is not modelled.
- SwitchEventRuns.OrderDoesNotMatter: call records, recordings and survey scores are projected by services outside this model; a survey score is last-write-wins by design.
- SwitchEvents.SwitchStore.DeliverSwitchEvents: a publication that fails after part of its subscribers got it counts as not published.
- EventReporter.NothingVanishes: contents of events (sanitized details, call context) are left out; an event the server stored before the connection broke is sent again, which the server has to recognise by its id.
- SplitSql.SplitSQL: text is a sequence of code points; invalid UTF-8 is not modelled.
- WavChunks.ValidPromptWAV: integers have 64 bits, so that no size is negative.
- Recordings.RecordingTable.Save: JSON of the published row and the event's sequence number, which CallEvents covers.
- HTTP and WebSocket plumbing, SQL text, JSON bytes, speech providers, SIP, WebRTC, media engines, web views, configuration, permissions and log handling.
