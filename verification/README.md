# Verified model of Butler

Dafny models of the parts of the Butler home assistant whose correctness does not show in any single
function, with machine-checked proofs. `dafny verify dfyconfig.toml` checks everything.

| Component | Files | Main results |
|---|---|---|
| Agent tool loop and conversation store | `ToolHistory`, `Dialogue`, `MemoryStore`, `MemoryReplay`, `StreamTurn`, `AgentLoop`, `AgentRuns`, `AgentGuard`, `AgentSpeech`, `LeakedCalls` | every run of the loop, however it ends, records a tool history that the store accepts exactly when its batches were clean; replay is the longest run of newest whole turns that fits both budgets; every request answers every call |
| MCP providers | `SchemaStrip`, `ProviderStatus`, `ProviderLifecycle`, `ProviderStarts`, `ProviderFailures`, `ProviderRecord`, `ProviderCourse` | the schema rewrite keeps the meaning of every schema; the status record is never contradictory in any interleaving; one start at a time exactly as long as no call removes the entry of another; how often a failed start is counted, exactly |
| Background jobs | `JobStore`, `JobManager`, `JobTruth`, `JobCourse` | with any number of workers, crashes and restarts: one execution a job, final statuses, one terminal event that tells what the executor did, no job forgotten, gap-free polling |
| Fan MQTT client | `Mqtt`, `MqttConnect`, `MqttSessions` | a publisher and a reader exchange every message and every acknowledgement, call by call and with no byte left over; which cut packets are delivered, exactly |
| JSON completion | `JsonRepair` | the completed text is closed, and stays as it is in a second pass, exactly unless it breaks off behind a backslash; its reading is kept |
| Info panel graphics | `LineClipper`, `WireMesh`, `PolygonMesh`, `FeatureEdges` | clipping is exact; the boundary of a triangulated polygon is the polygon, and of a mesh of polygons their unshared sides |
| Launcher settings | `SettingsFile`, `SettingsBreaks`, `SettingsComments` | any sequence of writes behaves like a map through the file; which values survive, and which leave other keys alone, exactly |
| Awareness signals | `SignalQueue` | every signal is accounted for while emissions are serial; with more threads the counters miss exactly the second puts that fail |
| Prompt and tool prefix | `PromptAssembly`, `PromptContents`, `ToolOrder`, `ToolSurface` | the stable half of the prompt and the leading tools are the same on every turn of a lane |

`PyText` holds the parts of Python's `str` that several components use; `TextMeaning` says what they do.

Code that works step by step is modelled step by step: `ValidatedToolMessages`, `RunCommandStream`,
`Store.GetRecentMessages`, `Client.Publish`, `RepairJsonObject`, `SetSetting` and the like are methods with loops
and fields, each proved against a specification function; the theorems are about those functions. The three
concurrent components (`ProviderLifecycle`, `JobManager`, `SignalQueue`) are transition systems whose steps are the
code between two awaits, two transactions or two queue operations; the theorems quantify over all runs.
The model server, the tools, the user and the consumer of a stream are arbitrary functions (`AgentLoop.World`).

## Where the code falls short of its own comments

* `<tool_call` markup is held back only if the first visible fragment spells the whole tag
  (`StreamTurn.TagMustArriveWhole`, `StreamTurn.SplitTagIsSpoken`); for text that begins with anything but `<` the
  cut into fragments is irrelevant.
* Two calls with the same id in one batch cost the whole turn its record (`AgentRuns.RepeatedIdIsRefused`,
  `AgentRuns.HistoryAcceptedIff`).
* A call removes the pending entry of a provider without looking whose it is. When the entry is that of another,
  unfinished start, that start goes out of sight and the next call starts a second process; nothing else can cause that
  (`ProviderStarts.StepStaysSingleIff`, `ProviderStarts.OneStartWithoutForeignPop`, `ProviderStarts.ForeignPopStartsTwo`).
* One failed start is counted up to three times: by its callback, by the call that waited for it, and by a call that
  found its entry in between. Each counts unless it was cancelled first (`ProviderFailures.FailureIsCounted`), and three
  times is possible even with one call at a time (`ProviderFailures.SerialFailureCanCountThreeTimes`).
* The MQTT packet number is never wrapped; from 65536 on a packet is torn in the middle and the reader completes it
  with whatever follows (`MqttSessions.PacketNumbersRunOut`, `MqttSessions.TornPacketTakesNextBytes`).
* A connection that closes inside a packet is noticed only in front of the topic (quality 0) or of the payload
  (quality 1 and 2). Behind that, the part that arrived is delivered as the message, and at quality 1 it is acknowledged
  (`MqttSessions.CutPacketIsDeliveredIff`).
* An edge that crosses a clip plane at a very small angle is dropped although part of it is visible
  (`LineClipper.NothingDrawnIff`, `LineClipper.VisibleEdgeCanBeLost`).
* An end of an edge on the right or the lower side of the view is drawn one pixel outside the panel
  (`LineClipper.PixelsLieInPanel`, `LineClipper.DiagonalEndsOutside`).
* A thread that dies of an uncaught exception (a failing store, a result that is no string, a blank error message) takes
  its job with it: the job stays open until the process starts again, or has ended without its terminal event
  (`JobManager.NoJobIsForgotten`, `JobManager.RestartClosesEveryJob`).
* `set_setting` stores values that `get_setting` does not give back: values with surrounding blanks, a line break or
  ` #` (`SettingsFile.WrittenValueReadsBackIff`). A value with a line break can also set another key
  (`SettingsBreaks.OtherKeysSurviveIff`, `SettingsBreaks.BrokenValueSetsAnother`). A comment is cut off a value, but one that
  stands alone behind `KEY=` is the value (`SettingsComments.ValueIsRead`).
* With two threads emitting at once a signal can vanish uncounted (`SignalQueue.TwoEmittersCanLoseOne`,
  `SignalQueue.SignalsCanBeLost`).
* `combined()` differs from the unsplit prompt exactly when the text of the last stable section is blank and something
  follows it (`PromptAssembly.PromptIsUnsplitIff`, `PromptAssembly.EmptyOverlayShows`).

## Model

| member | source | states |
|---|---|---|
| ToolHistory.ValidatedToolMessages | butler/memory/store.py:517-554 | the validation loop, with its error for every malformed list, computes `Scan` |
| ToolHistory.AcceptedIffComplete | butler/memory/store.py:517-554 | a list is accepted exactly when it is a concatenation of exchanges: calls with distinct non-blank ids, names and text arguments, then one text result for each call and nothing else |
| ToolHistory.CompleteExchangesAreAccepted | butler/memory/store.py:525-549 | what is accepted is returned with ids and names trimmed and intermediate speech dropped, everything else unchanged and in order |
| ToolHistory.AcceptedIsCleaned | butler/memory/store.py:525-549 | message by message: results stay as they are, the calls keep order, number and arguments and have ids and names trimmed, and speech beside them is dropped |
| ToolHistory.ValidationIsIdempotent | butler/memory/store.py:517-554 | what validation returned, it accepts and returns unchanged ever after, so replaying stored history never raises |
| MemoryStore.Store.RecordTurn | butler/memory/store.py:106-156 | a turn adds its one or two rows together or, on any error, nothing |
| MemoryStore.Store.RecordMessage | butler/memory/store.py:78-104 | one trimmed row, or nothing when a field is blank |
| MemoryStore.Store.AmendLastAssistantMessage | butler/memory/store.py:158-197 | only the newest spoken row of the session changes, its tool history stays, or the missing reply is added |
| MemoryStore.Store.GetRecentMessages | butler/memory/store.py:228-298 | unit building and budgeted selection compute `Replay` |
| MemoryStore.LongestSuffixIsLongest | butler/memory/store.py:283-297 | the units kept fit both budgets and no longer run of newest units does |
| MemoryStore.LongestSuffixUnique | butler/memory/store.py:284-297 | stopping at the first unit that does not fit finds that longest run |
| MemoryStore.ReplayIsADialogue | butler/memory/store.py:228-298 | for every store of turns and amendments and all budgets, replay succeeds, fits both budgets, never begins inside a tool exchange, and holds no orphan result and no unanswered call |
| MemoryStore.RecordThenReplay | butler/memory/store.py:106-298 | under any limits, a tool turn just recorded ends the replay whole if it fits, and otherwise nothing is replayed |
| MemoryReplay.ReplayIsLongestSuffix | butler/memory/store.py:228-298 | for every store of turns and amendments and all limits, replay is exactly the longest run of newest whole turns of the session that fits both limits; the row limit of the query never costs a turn that would have fitted |
| MemoryReplay.StoredTurnIsReplayedIff | butler/memory/store.py:228-298 | a tool turn anywhere in the store is replayed exactly when it and everything newer fit, whole and followed by everything newer; otherwise the replay is that of what is newer |
| MemoryReplay.AmendmentKeepsTheRest | butler/memory/store.py:158-197 | amending the newest reply of a session, wherever it is in the table and with or without tools, changes only that reply in the newest unit; request, rounds, older units and all other sessions stay |
| MemoryReplay.MissingReplyIsAdded | butler/memory/store.py:158-197 | a reply that was never stored becomes a unit of its own behind the others |
| MemoryReplay.StoredMessageIsReplayedIff | butler/memory/store.py:228-298 | a stored message without tools is replayed exactly when it and everything newer fit, in its role and as its own text with single blanks, cut behind a word |
| MemoryReplay.ToolTurnIsShown | butler/memory/store.py:251-280 | a tool turn is the request and the reply as texts shown in that way, with the stored rounds between them, and no reply if it is blank |
| MemoryReplay.LimitsAreKept | butler/memory/store.py:283-297 | at most so many messages, at most so many characters of prose and of serialised tool messages, and at most 1200 in one message |
| MemoryReplay.SessionsAreSeparate | butler/memory/store.py:235-247 | what counts for a session is exactly its own user and assistant rows |
| TextMeaning.CompactTextIs | butler/memory/store.py:603-610 | the compacted text, and no other, has the visible characters of the text in order, a single blank wherever whitespace parted two of them and no other whitespace, and if that is too long it is cut behind its last blank within the limit and ends in three dots |
| TextMeaning.StripTakesBlanks | butler/memory/store.py:603-610 | stripping takes the whitespace at both ends and nothing else; this is what every trimmed text of the other components rests on |
| TextMeaning.SpacesAre | butler/memory/store.py:603-610 | the code points that Python counts as whitespace |
| StreamTurn.RunTurn | butler/agent/runtime.py:2716-2776 | what one streamed turn collects, speaks, defers and holds back, for every sequence of events, cancellation, exception and closing consumer |
| StreamTurn.DecisionIgnoresChunking | butler/agent/runtime.py:1057-1061 | unless the visible text begins with `<`, the decision is the one on the whole text |
| StreamTurn.ChunkingDoesNotMatter | butler/agent/runtime.py:2724-2749 | two cuts of the same text are treated alike |
| StreamTurn.TagMustArriveWhole | butler/agent/runtime.py:1061 | text that begins with `<` is held back exactly when the first visible fragment spells the whole tag |
| StreamTurn.SplitTagIsSpoken | butler/agent/runtime.py:1057-1061 | the same leaked call is held back in one piece and spoken in two |
| AgentSpeech.FirstCharacterDecides | butler/agent/runtime.py:1057-1061 | a turn that begins with a brace is held back, one that begins with anything but a brace or `<` is spoken, however it is cut and whatever blanks are in front |
| AgentLoop.ExecuteChatToolCalls | butler/agent/runtime.py:2412-2469 | one result message for each call, in call order and under its id |
| AgentLoop.FinishRound | butler/agent/runtime.py:2789-2874 | after a completed turn: text held back for nothing is spoken, then retry, answer, limit or tools, each under its own condition |
| AgentLoop.RunCommandStream | butler/agent/runtime.py:2681-2886 | the whole loop terminates and yields a legal run; what was yielded to the consumer, collected apart from what is recorded, is what the rounds of that run say, and in every ending the two are equal |
| AgentRuns.RunIsBounded | butler/agent/runtime.py:2801-2874 | at most `maxRounds` tool batches, one forced retry and `maxRounds + 2` model requests, for every model |
| AgentRuns.HistoryAcceptedIff | butler/agent/runtime.py:2872 | however a run ends, the store accepts its tool history exactly when every batch had named calls with distinct, non-blank, unpadded ids |
| AgentRuns.RepeatedIdIsRefused | butler/memory/store.py:529-530 | two calls with one id: the history is refused |
| AgentRuns.RequestsAnswerEveryCall | butler/agent/runtime.py:2837-2873 | every request is the opening prompt followed by messages in which each tool-call message is directly followed by its results in call order |
| AgentRuns.PhysicalGuard | butler/agent/runtime.py:2688-2749 | while a requested physical action has not succeeded, no streamed text is emitted; of the model's words only a whole turn held back as markup that held no call |
| AgentRuns.NoSilentFailure | butler/agent/runtime.py:2825-2829 | an answer without a successful action ends with the note that no command was sent |
| AgentGuard.GuardIsExact | butler/agent/runtime.py:2688-2864 | by the answers of the tools alone: while no action was tried, or all actions of the newest batch with one failed, the turn is deferred and no fragment is streamed; as soon as one of them worked, it is not |
| AgentGuard.PlainCommandIsStreamed | butler/agent/runtime.py:2688-2690 | a command that asks for no physical action is never deferred |
| AgentGuard.NoteIsExact | butler/agent/runtime.py:2825-2829 | by the answers of the tools alone: an answer ends with the note if nothing worked, and does not contain it otherwise |
| AgentGuard.EndingsMean | butler/agent/runtime.py:2681-2886 | why a run ended: the user, the backend, a tool that raised, a missing completion, or the consumer |
| AgentGuard.RetryIsExact | butler/agent/runtime.py:2801-2823 | the model is asked again at most once, and only for a physical action for which there is a tool and none was called; it may answer only when that does not hold |
| AgentGuard.LimitIsSaid | butler/agent/runtime.py:2831-2834 | a run that stops at the limit has used up its rounds and says so last |
| AgentSpeech.ModelIsToldItsWords | butler/agent/runtime.py:2836-2838 | what goes back to the model with a batch is all of the turn's text, deferred or not, or nothing when it is blank or calls were recovered from it |
| AgentSpeech.ResponseIsWhatWasSaid | butler/agent/runtime.py:2877 | the stored answer is everything that was said, without the speaker's name wherever it stands and without outer whitespace |
| AgentRuns.AllOrNothing | butler/agent/runtime.py:2716-2799 | a completed, undeferred turn is spoken whole, or not at all when it is blank or calls were recovered from it |
| AgentRuns.ReplayedRequestsAreDialogues | butler/memory/store.py:228-298 | requests built on replayed history hold only whole rounds of tool use, for any store and any clean run so far |
| AgentRuns.RunIsStoredAndReplayed | butler/agent/runtime.py:2876-2886 | a run that used tools is stored exactly when its batches were clean, and then, under any limits, comes back whole at the end of the replay if it fits, and otherwise nothing does |
| LeakedCalls.ExtractLeakedToolCalls | butler/agent/runtime.py:1106-1128 | the calls recovered from the decoded objects, with position ids |
| LeakedCalls.RecoveredBatchIsClean | butler/agent/runtime.py:1082-1128 | whatever the model printed, the recovered calls form a batch that the store can record |
| LeakedCalls.EachNamedObjectIsACall | butler/agent/runtime.py:1106-1128 | every object that names a tool is one call, in order, with the trimmed name, its arguments or `{}`, and its place in decimal digits as id; nothing else is a call |
| LeakedCalls.CleanServersAreStored | butler/agent/runtime.py:2789-2886 | when the server's own calls are clean, every run is stored, whatever was leaked and recovered |
| SchemaStrip.MeaningIsKept | butler/mcp_client/client.py:1467-1497 | every JSON value validates against the stripped schema exactly when it did before |
| SchemaStrip.StripRemovesExactlyTitles | butler/mcp_client/client.py:1467-1497 | no schema position keeps a title, and a schema is unchanged exactly when it had none |
| SchemaStrip.StripIsIdempotent | butler/mcp_client/client.py:1467-1497 | stripping twice is stripping once |
| SchemaStrip.ParametersAndDataSurvive | butler/mcp_client/client.py:1459-1497 | parameters keep their names, `title` included; keywords that are copied keep their data |
| SchemaStrip.SchemasStandUnder | butler/mcp_client/client.py:1459-1497 | the keywords below which the walk goes on, those whose values are maps of schemas, and no others |
| ProviderStatus.Client.MarkServerHealthy | butler/mcp_client/client.py:1084-1092 | the new record, and that it stays consistent |
| ProviderStatus.Client.MarkServerStopped | butler/mcp_client/client.py:1094-1100 | the new record, and that it stays consistent |
| ProviderStatus.Client.MarkServerTransition | butler/mcp_client/client.py:1065-1082 | the new record for any status and health, and exactly when the table stays consistent |
| ProviderStatus.Client.MarkServerFailed | butler/mcp_client/client.py:1102-1129 | the failure is counted and classified by the threshold, and the server's routes and the caches go |
| ProviderStatus.Client.DropServerRoutes | butler/mcp_client/client.py:1131-1146 | exactly the server's routes go |
| ProviderStatus.FailedServerGetsNothing | butler/mcp_client/client.py:1131-1146 | nothing is routed to a failed server any more and no other server loses a route |
| ProviderLifecycle.EveryRunIsConsistent | butler/mcp_client/client.py:818-970 | in every interleaving: healthy exactly when the status says so, and then no failures, error or retry time; the warming timer exactly in transient states; starting, reconnecting, degraded and failed fit the failure count |
| ProviderRecord.CountIsSinceItWorked | butler/mcp_client/client.py:1065-1129 | in every run the failure count is the number of failures marked since the provider was last seen to work |
| ProviderRecord.RecordIsTheAccounts | butler/mcp_client/client.py:826-970 | as long as nothing is seen to work, the failure count is the sum of what all starts and operations were counted for |
| ProviderRecord.WorkingIsHealthy | butler/mcp_client/client.py:1084-1092 | every step that shows the provider working leaves it healthy, without failures, error, retry or timer |
| ProviderRecord.BreakingIsCounted | butler/mcp_client/client.py:1102-1129 | every marking adds one failure and makes the provider failed at the threshold, degraded below it |
| ProviderRecord.OthersKeepTheCount | butler/mcp_client/client.py:1065-1100 | every other step keeps the count, and only a stop or a start changes anything else |
| ProviderRecord.StartsIff | butler/mcp_client/client.py:818-875 | a call starts a process exactly when nothing runs or is in flight and, unless it is forced, nothing has failed |
| ProviderRecord.StartingIsShown | butler/mcp_client/client.py:870-876 | a step that starts a process shows it as warming, reconnecting or starting, with the timer and without an error |
| ProviderRecord.InFlightIsLeftAlone | butler/mcp_client/client.py:843-864 | a call that meets a start in flight says so, leaves a warmup warming, and starts nothing |
| ProviderRecord.FailedProviderIsLeftAlone | butler/mcp_client/client.py:866-868 | an unforced call changes nothing at a provider that has failed and is down |
| ProviderRecord.WarmupStartsIff | butler/mcp_client/client.py:947-970 | a background start begins exactly when nothing runs and nothing is in flight |
| ProviderRecord.UnforcedStartFollowsNoFailure | butler/mcp_client/client.py:866-868 | in no run is a process started unforced behind a failure marked since the provider last worked |
| ProviderCourse.UsesAHealthyProvider | butler/mcp_client/client.py:818-924 | whenever a call gets to use a provider it runs or its start has just succeeded, and the record is healthy |
| ProviderCourse.WaitingEnds | butler/mcp_client/client.py:880-910 | a waiting call wakes exactly when its start has ended and times out exactly when it has not, and what it does then |
| ProviderCourse.ForegroundStartEnds | butler/mcp_client/client.py:876-945 | a start ends once, its callback runs once, takes only its own entry away and spawns a marking exactly when it failed |
| ProviderCourse.WarmupEnds | butler/mcp_client/client.py:947-998 | a warmup takes only its own entry away, in success and, behind its cleanup, in failure |
| ProviderCourse.GoesDown | butler/mcp_client/client.py:1102-1117 | a running connection goes down exactly by breaking, by a stop, or by a cleanup that works |
| ProviderCourse.BeginsFresh | butler/mcp_client/client.py:129-140 | a provider begins as not started, without failures, error, retry, timer, start or call |
| ProviderCourse.ComesUpInAStart | butler/mcp_client/client.py:876-970 | a connection comes up only while a start of it is under way |
| ProviderCourse.StartCanGoOn | butler/mcp_client/client.py:876-970 | a start under way may open its session and may end either way, and nothing keeps a stop or a warmup from being asked for |
| ProviderCourse.CallsMoveThemselves | butler/mcp_client/client.py:818-924 | no step of one call, and no task, moves another call |
| ProviderCourse.WorkingProviderIsUsed | butler/mcp_client/client.py:818-832 | a call on a running provider, or behind a start that succeeded, uses it and starts nothing |
| ProviderCourse.FailedStartIsTakenOver | butler/mcp_client/client.py:826-841 | a call that finds a start failed takes its entry away and is left with marking the failure |
| ProviderCourse.CancelledCallLeaves | butler/mcp_client/client.py:911-919 | a cancelled call leaves, unless its start has ended: then the failure is still marked |
| ProviderCourse.CallLeaves | butler/mcp_client/client.py:888-924 | a call leaves once it has marked its failure or done its operation; a failed operation is marked first |
| ProviderCourse.ReadyIff | butler/mcp_client/client.py:1055-1063 | a provider can be used without the protocol exactly when it runs and is healthy |
| ProviderCourse.SpawnedMarkingRunsOnce | butler/mcp_client/client.py:926-945 | the marking that a callback has spawned runs once and touches no entry, start or call |
| ProviderCourse.StopKeepsTheRest | butler/mcp_client/client.py:1094-1100 | a stop takes the connection down and leaves calls, starts and entry alone |
| ProviderStarts.OneStartWithoutForeignPop | butler/mcp_client/client.py:818-970 | with any number of overlapping calls: as long as no call removes the entry of another unfinished start, no two starts are in flight together |
| ProviderStarts.StepStaysSingleIff | butler/mcp_client/client.py:818-970 | from any state with every unfinished start in the table, a step loses one exactly when it removes such a foreign entry |
| ProviderStarts.ForeignPopStartsTwo | butler/mcp_client/client.py:826-888 | from every well-formed state in which a foreign entry can be removed, two more steps at most put two starts in flight |
| ProviderStarts.ForeignPopHappens | butler/mcp_client/client.py:888 | such a state is reached from the beginning |
| ProviderStarts.AtMostOneStart | butler/mcp_client/client.py:818-970 | with one foreground call at a time no two starts of a provider are in flight together |
| ProviderFailures.FailureIsCounted | butler/mcp_client/client.py:826-970 | in every run and interleaving, a failed foreground start that everybody is done with was counted twice, once more if a call found its entry, and once less for each of these that was cancelled first; from this, exactly when it was counted once and when three times |
| ProviderFailures.CountIsBounded | butler/mcp_client/client.py:826-970 | at most three times in any run, and at most once for a warmup or a start that did not fail |
| ProviderFailures.SerialFailureCountsTwice | butler/mcp_client/client.py:826-924 | one call at a time, and the call that began the start does not give up: at most twice |
| ProviderFailures.SerialFailureCanCountThreeTimes | butler/mcp_client/client.py:826-924 | one call at a time is not enough: a timed out wait, then a call that finds the failed entry before the callback runs |
| ProviderFailures.FailureCanCountTwice | butler/mcp_client/client.py:888-924 | counted by the callback and by the waiting call |
| ProviderFailures.FailureCanCountOnce | butler/mcp_client/client.py:888-924 | counted by the callback alone, after the waiting call was cancelled |
| JobStore.Store.CreateJob | butler/jobs.py:106-154 | a queued row, or nothing when a field is blank |
| JobStore.Store.UpdateStatus | butler/jobs.py:156-208 | only the named job's status changes; an unknown id changes nothing |
| JobStore.Store.RecordEvent | butler/jobs.py:210-247 | one event with the next id at the end of the log, or nothing for a blank field or an unknown job |
| JobStore.Store.ListSessionEvents | butler/jobs.py:272-292 | the first events of the session behind the cursor, clamped as the code clamps |
| JobStore.Store.MarkIncompleteJobsInterrupted | butler/jobs.py:308-341 | every job that had not ended is interrupted and gets one event, in one transaction |
| JobStore.ResumeAfter | butler/jobs.py:272-292 | asking again behind the k-th event gives exactly what followed it |
| JobStore.PollingIsGapFree | butler/jobs.py:210-292 | a client that always asks after the last id it saw, under any limits and with events appended between, holds a gap-free, duplicate-free, ordered prefix of the session's events |
| JobStore.PollingCatchesUp | butler/jobs.py:272-292 | a poll is empty only when the client has everything |
| JobManager.StepKeepsInv | butler/jobs.py:390-537 | every step of submitters, workers, shutdown, crash and restart keeps the invariant: one owner a job, statuses, events and executor calls in agreement |
| JobManager.ExecutorCalledAtMostOnce | butler/jobs.py:466-488 | in every run from an empty database no job's executor is called twice |
| JobManager.OneTruthfulTerminalEvent | butler/jobs.py:488-537 | a job has at most one terminal event, and it agrees with the job's status |
| JobTruth.OutcomeIsTrue | butler/jobs.py:486-537 | in every run, succeeded rows and "completed" events are of jobs whose executor returned, failed rows and "failed" events of jobs whose executor raised |
| JobTruth.AnsweredOnce | butler/jobs.py:466-488 | the executor answers for a job once at most |
| JobCourse.SubmissionQueues | butler/jobs.py:415-442 | a submission to an open manager leaves the row, the "queued" event and the entry behind all others |
| JobCourse.ExecutionEndsJob | butler/jobs.py:466-537 | an idle worker with a job at the head of the queue calls the executor once, ends the row as the executor did, records the two events and is idle again |
| JobCourse.EndedForGood | butler/jobs.py:455-464 | a thread that is through takes no step any more while the process is up |
| JobCourse.NoStopBeforeShutdown | butler/jobs.py:446-453 | without a shutdown no worker is told to stop |
| JobCourse.StartOpens | butler/jobs.py:393-413 | a process that is down can only be started, and is open for submissions then |
| JobCourse.EndsAt | butler/jobs.py:415-537 | what ends a thread: a submission that is over or refused, a stop, a failure without a message, or an uncaught exception, and what each leaves behind |
| JobCourse.ClosedAdmitsNobody | butler/jobs.py:424-426 | a manager that is shut down admits no submission |
| JobCourse.StartNeedsAWorker | butler/jobs.py:404 | a manager runs one worker at least |
| JobCourse.BeginsWithAStart | butler/jobs.py:390-413 | the first step of any run is a start of the process |
| JobCourse.CrashKeepsTheStore | butler/jobs.py:446-464 | a crash loses queue and threads and nothing that is stored or was called |
| JobCourse.RestartBegins | butler/jobs.py:393-413 | a start interrupts what was open and begins with idle workers only |
| JobCourse.RestartTellsOfEveryJob | butler/jobs.py:308-341 | every job that was open gets exactly one "interrupted" event in its own session |
| JobManager.TerminalStatusIsFinal | butler/jobs.py:308-537 | once a job has ended its row never changes and its executor is not called any more |
| JobManager.NoJobIsForgotten | butler/jobs.py:390-537 | while the process is up every job that has not ended is in the queue, in some thread's hands, or in those of a thread that died |
| JobManager.RestartClosesEveryJob | butler/jobs.py:308-341 | the next start of the process marks every job that had not ended interrupted, those that died with a thread included |
| JobManager.OneWorkerWorksInOrder | butler/jobs.py:444-488 | with one worker, what has been executed since the start of the process is an initial part of the jobs in the order in which they were put |
| JobManager.ShutdownAddsNoJob | butler/jobs.py:425-453 | after a shutdown, once submissions under way have written their rows or been refused, no job is added |
| JobManager.LogOnlyGrows | butler/jobs.py:210-341 | no step removes or reorders events |
| JobManager.WatcherMissesNothing | butler/jobs.py:272-537 | a client polling while the manager runs, crashes and restarts misses nothing and sees nothing twice |
| Mqtt.Client.SendStr | Peripherals/fan/simple.py:40-42 | a length-prefixed string, refused from 65536 bytes on |
| Mqtt.Client.RecvLen | Peripherals/fan/simple.py:44-52 | the shifting loop decodes the variable-length number |
| Mqtt.Client.FillLength | Peripherals/fan/simple.py:130-135 | the length written in place never runs over the four-byte header |
| Mqtt.Client.Publish | Peripherals/fan/simple.py:124-157 | for any quality and lengths, what is written, read and delivered in every outcome, and when the packet number grows |
| Mqtt.HeaderFitsIff | Peripherals/fan/simple.py:125-126 | the first byte can be stored exactly for qualities 0 to 127; any other raises before a byte is out |
| Mqtt.HeaderBits | Peripherals/fan/simple.py:125-126 | bits 4 and 5 of the first byte are set, the others are those of quality and retain flag |
| Mqtt.HighByteFirst | Peripherals/fan/simple.py:40-205 | numbers of two bytes are written and read high byte first |
| Mqtt.Client.WaitMsg | Peripherals/fan/simple.py:182-213 | what one message consumes, delivers and acknowledges, in every outcome |
| Mqtt.Client.WaitForAck | Peripherals/fan/simple.py:146-154 | messages are served until the awaited acknowledgement |
| Mqtt.LengthRoundTrip | Peripherals/fan/simple.py:44-52 | every number encoded in groups of seven bits is decoded, whatever follows (section 2.2.3 of MQTT 3.1.1) |
| Mqtt.LengthFitsHeader | Peripherals/fan/simple.py:124-135 | three length bytes suffice exactly below 2097152, the limit that is asserted |
| MqttSessions.PacketRoundTrip | Peripherals/fan/simple.py:124-213 | a PUBLISH packet of quality 0 or 1 is read back exactly, is acknowledged by its own number if its quality is 1, and nothing behind it is touched (sections 3.3 and 3.4) |
| MqttSessions.PacketsRoundTrip | Peripherals/fan/simple.py:124-213 | any sequence of packets is read back as the same messages with no byte left over |
| MqttSessions.AckIsFoundInTraffic | Peripherals/fan/simple.py:146-213 | whatever arrives in front of the awaited acknowledgement is delivered, acknowledged or skipped, and the rest of the stream is left alone |
| MqttSessions.PublisherMeetsReader | Peripherals/fan/simple.py:124-213 | a publisher and a reader joined by their streams, after every number of calls: each has returned, the messages have arrived in order, the reader has written exactly the acknowledgements the publisher has consumed, and no byte is under way |
| MqttSessions.PacketNumbersRunOut | Peripherals/fan/simple.py:141-145 | with a peer that answers, a quality 1 packet gets through exactly while its number fits two bytes; otherwise it is torn |
| MqttSessions.TornPacketTakesNextBytes | Peripherals/fan/simple.py:141-204 | the reader completes a torn packet with the bytes that follow |
| MqttSessions.CutPacketIsDeliveredIff | Peripherals/fan/simple.py:182-213 | for every proper prefix of a packet: something is delivered exactly when the prefix reaches past the topic's length (quality 0) or past the packet number (quality 1 and 2), what is delivered is never the message that was sent, and at quality 1 it is acknowledged; otherwise the reader fails and delivers nothing |
| MqttSessions.CutPayloadIsDelivered | Peripherals/fan/simple.py:203-206 | cut inside the payload: the part is delivered as if it were complete, and acknowledged at quality 1 |
| MqttSessions.CutTopicIsDelivered | Peripherals/fan/simple.py:195-204 | cut inside the topic at quality 0: delivered under the part of the topic, with an empty payload |
| MqttConnect.SendConnect | Peripherals/fan/simple.py:77-110 | the bytes written by `connect` for options of any size, or the part that is out when it fails, with each failure exactly characterised |
| MqttConnect.FillLongLength | Peripherals/fan/simple.py:77-101 | the length in the six bytes in front, behind it zeros; an index error exactly when it needs more than five |
| MqttConnect.ConnectRoundTrip | Peripherals/fan/simple.py:65-110 | read as section 3.1 of MQTT 3.1.1 prescribes, the packet gives back every option, its length field counts exactly the bytes that follow, and nothing behind it is touched |
| JsonRepair.RepairJsonObject | butler/tool_arguments.py:38-98 | the character loop and the appended closers compute `Repaired` |
| JsonRepair.CompletedIsClosedIff | butler/tool_arguments.py:38-98 | the result rescans to outside any string with nothing open exactly when the text does not break off behind an escaping backslash |
| JsonRepair.CompletedIsClean | butler/tool_arguments.py:60-68 | no string of the result holds a raw line break or tab, except right behind a backslash |
| JsonRepair.CompletionKeepsMeaning | butler/tool_arguments.py:48-98 | a reader finds everything that was there, unchanged and in order, and behind it only the missing closers (section 7 of RFC 8259) |
| JsonRepair.UnchangedIff | butler/tool_arguments.py:22-24 | nothing is changed exactly when nothing was open and every string was clean |
| JsonRepair.RepairIsFixedPointIff | butler/tool_arguments.py:38-98 | a second pass changes nothing exactly when the text does not break off behind an escaping backslash |
| LineClipper.ClipAndProject | InfoPanel/moving_vector_portrait.py:124-177 | the loop over the six planes computes `Clip` and projects both ends |
| LineClipper.ClipIsExact | InfoPanel/moving_vector_portrait.py:132-164 | a returned segment holds exactly the parameters of the edge that are inside the clip cube |
| LineClipper.NothingDrawnIff | InfoPanel/moving_vector_portrait.py:147-164 | nothing is drawn exactly when nothing is visible or some plane is crossed with a difference below 1e-8 |
| LineClipper.VisibleEdgeCanBeLost | InfoPanel/moving_vector_portrait.py:154-156 | an edge, exact in 32-bit floats, that is visible and lost |
| LineClipper.PixelsLieInPanel | InfoPanel/moving_vector_portrait.py:165-177 | both ends drawn lie in the panel or just behind its far edges, and there exactly when the point is on the right or the lower side of the clip cube |
| LineClipper.DiagonalEndsOutside | InfoPanel/moving_vector_portrait.py:124-177 | an edge across the whole view whose lower end is drawn one pixel outside the panel, in any panel |
| LineClipper.CornersOfThePanel | InfoPanel/moving_vector_portrait.py:170-175 | the corners of the clip cube are drawn at the corners of the panel, y downwards |
| LineClipper.PixelIsScaled | InfoPanel/moving_vector_portrait.py:165-175 | between the edges of the panel pixels follow the position in equal steps, rounded down |
| LineClipper.AlongTheEdge | InfoPanel/moving_vector_portrait.py:162-163 | the parameter runs from the first end of the edge to the second in equal steps |
| LineClipper.ClippingTwiceIsOnce | InfoPanel/moving_vector_portrait.py:132-164 | what is left after clipping is not clipped again |
| LineClipper.DirectionDoesNotMatter | InfoPanel/moving_vector_portrait.py:132-164 | listing an edge from its other end gives the mirrored segment, or nothing in both cases |
| WireMesh.Triangulate | InfoPanel/obj_wireframe_loader.py:132-134 | the loop builds the fan |
| WireMesh.ExtractEdges | InfoPanel/obj_wireframe_loader.py:37-82 | the counting loops and the selection compute `Edges`, in order of first appearance |
| WireMesh.BoundaryOfPolygon | InfoPanel/obj_wireframe_loader.py:37-134 | triangulating a polygon with distinct corners and keeping boundary edges gives exactly its sides, each once and in order |
| PolygonMesh.BoundaryOfMesh | InfoPanel/obj_wireframe_loader.py:37-134 | in a mesh of any number of polygons the boundary edges are exactly the sides of one polygon that are neither sides nor fan diagonals of any other |
| PolygonMesh.CountInPolygon | InfoPanel/obj_wireframe_loader.py:46-53 | the fan of one polygon counts a side once, a diagonal from the first corner twice, and no other edge |
| WireMesh.SideAndSpokeCounts | InfoPanel/obj_wireframe_loader.py:46-53 | sides are counted once and diagonals twice |
| WireMesh.SidesAreDistinct | InfoPanel/obj_wireframe_loader.py:33-35 | the sides are as many different edges as there are corners |
| WireMesh.CountsAreThreePerTriangle | InfoPanel/obj_wireframe_loader.py:46-53 | in any mesh the counts add up to three for each triangle |
| WireMesh.ModesAreNested | InfoPanel/obj_wireframe_loader.py:55-79 | boundary edges are always features, and all edges of the mesh are what mode `all` gives |
| FeatureEdges.FeaturesAre | InfoPanel/obj_wireframe_loader.py:60-79 | in any mesh without degenerate triangles an edge is a feature exactly when one triangle has it, or the first two that share it are bent by the given angle |
| FeatureEdges.OtherModesAre | InfoPanel/obj_wireframe_loader.py:53-58 | mode `all` gives every side of a triangle, mode `boundary` those of exactly one |
| FeatureEdges.EdgeIsOrdered | InfoPanel/obj_wireframe_loader.py:33-35 | an edge is named by its corners, the smaller number first |
| SettingsFile.Settings.GetSetting | butler/launcher/config.py:143-168 | the first assignment, else the first commented one, else the defaults |
| SettingsFile.Settings.SetSetting | butler/launcher/config.py:208-240 | the file afterwards is the changed lines joined |
| SettingsFile.OneLineChanges | butler/launcher/config.py:208-236 | one line is written, every other line stays in its place, and at most two lines are added |
| SettingsFile.ChangedKeyReads | butler/launcher/config.py:195-236 | the key then reads as the written value without blanks and comment |
| SettingsComments.AssignmentIsRead | butler/launcher/config.py:143-206 | the first line that assigns a key gives its value without the blanks and the comment around it, whatever else is in the file |
| SettingsComments.CommentedAssignmentIsRead | butler/launcher/config.py:143-206 | without such a line the first commented one gives the value in the same way |
| SettingsComments.AssignsIff | butler/launcher/config.py:133-134 | a line assigns a key exactly when it is whitespace, the key, `=` and the value |
| SettingsComments.CommentAssignsIff | butler/launcher/config.py:133-134 | a line assigns a key in a comment exactly when it is whitespace, `#`, whitespace, the key, `=` and the value |
| SettingsComments.DefaultsComeLast | butler/launcher/config.py:143-168 | behind the file come the launcher's default, the caller's, and nothing |
| SettingsComments.IndentationIsKept | butler/launcher/config.py:217-236 | a write keeps the indentation of the line it takes over |
| SettingsComments.LinesEndAtBreaks | butler/launcher/config.py:137-140 | every line break ends one line, a carriage return with a line feed behind it being one |
| SettingsComments.BreaksAre | butler/launcher/config.py:137-140 | the code points at which `splitlines` ends a line |
| SettingsFile.OtherKeysUntouched | butler/launcher/config.py:143-236 | among the changed lines every other key reads as before |
| SettingsBreaks.OtherKeysSurviveIff | butler/launcher/config.py:137-240 | a write leaves another key alone in every file exactly when no line of the value behind its first break assigns that key |
| SettingsBreaks.FileAfterChange | butler/launcher/config.py:137-240 | the lines of the file after a write of any value: the written line is broken where the value is, all others are in their places |
| SettingsBreaks.BrokenValueSetsAnother | butler/launcher/config.py:208-240 | a value with a line break that sets another key |
| SettingsFile.LastWriteWins | butler/launcher/config.py:208-236 | a second write of a key leaves no trace of the first |
| SettingsFile.LinesRoundTrip | butler/launcher/config.py:137-140 | lines that are written are read back as the same lines |
| SettingsFile.WrittenValueReadsBackIff | butler/launcher/config.py:143-240 | through the file, what is written is what is read exactly for stripped single lines that contain no ` #` |
| SettingsFile.CommentIsFound | butler/launcher/config.py:195-206 | the value is cut at a comment exactly when a ` #` occurs anywhere in it |
| SettingsFile.WritesBehaveLikeMap | butler/launcher/config.py:143-240 | after any sequence of such writes every key has its last written value, or its value from before |
| SignalQueue.EveryRunIsAccounted | butler/services/awareness_signals.py:117-156 | in every interleaving of any number of emitters: offered equals sent, failed, dropped, queued, in flight, held between two operations, and lost; the queue keeps its cap and its order |
| SignalQueue.SerialEmissionsAreAccounted | butler/services/awareness_signals.py:117-156 | with one emission at a time nothing is lost uncounted, the worker takes an ordered part of what was offered, and what waits are the newest signals |
| SignalQueue.StatsAreTruthful | butler/services/awareness_signals.py:82-94 | between emissions the counters, the depth and the one in flight add up to all signals offered |
| SignalQueue.StatsAreTruthfulIff | butler/services/awareness_signals.py:117-156 | with any number of emitters, between emissions the counters fall short of the signals offered by exactly the second puts that found the queue full again |
| SignalQueue.SentIsAccepted | butler/services/awareness_signals.py:117-131 | the counters of sent and failed signals are the numbers of posts that were accepted and that were not |
| SignalQueue.EmissionNeverBlocks | butler/services/awareness_signals.py:133-156 | a thread in the middle of an emission can always take its next step |
| SignalQueue.TwoEmittersCanLoseOne | butler/services/awareness_signals.py:140-156 | whenever the queue is full two emitters can lose a signal that no counter knows |
| SignalQueue.QueueFills | butler/services/awareness_signals.py:117-156 | from the start, emissions alone fill the queue to any depth up to its cap |
| SignalQueue.SignalsCanBeLost | butler/services/awareness_signals.py:117-156 | from the start, with two emitters or more, a run after which the counters miss a signal |
| PromptAssembly.UniqueOverlayNames | butler/agent/prompting.py:172-181 | the loop with its set computes `Unique` |
| PromptAssembly.UniqueMeans | butler/agent/prompting.py:169-181 | every non-blank normalised name once |
| PromptAssembly.BuildSections | butler/agent/prompting.py:84-133 | both halves, or the first overlay that is not known |
| PromptAssembly.CommandOverlaysStartAlike | butler/agent/runtime.py:864-872 | whatever a command asks for, the two standard overlays come first and the rest is extra |
| PromptAssembly.StableHalfIsStable | butler/agent/prompting.py:84-133 | two turns of one lane have the same stable half, whatever they ask, remember or are told |
| PromptContents.HalvesHold | butler/agent/prompting.py:84-133 | the stable half is the persona, the mode and the standard overlays; the changing half the other selected overlays in order, the memory and the extra context, each if it is not blank |
| PromptContents.SelectedOnce | butler/agent/prompting.py:103-113 | every selected overlay is in exactly one half |
| PromptContents.FailsIff | butler/agent/prompting.py:135-141 | the prompt is built exactly when the mode and every selected overlay are known; otherwise the error names the mode, or else the first selected overlay without a text |
| PromptContents.CommandAsksFor | butler/agent/runtime.py:864-872 | a command asks for the standard overlays and for each domain it touches |
| PromptContents.NormalMeans | butler/agent/prompting.py:165-167 | names are compared without outer whitespace, in small letters and with underscores |
| PromptAssembly.PromptIsUnsplitIff | butler/agent/prompting.py:58-62 | the two halves together are the unsplit prompt exactly unless the stripped text of the last stable section is blank and something follows |
| PromptAssembly.EmptyOverlayShows | butler/agent/prompting.py:58-62 | an empty overlay file and a memory block: the two prompts differ |
| ToolOrder.ReduceToolSurface | butler/agent/runtime.py:538-561 | the loop computes `Reduced` |
| ToolOrder.OrderSorts | butler/agent/runtime.py:571-593 | the published list is sorted and holds the same tools |
| ToolOrder.OrderSplits | butler/agent/runtime.py:564-593 | the always-on tools in their own order, then the others in theirs |
| ToolOrder.SortedIsUnique | butler/agent/runtime.py:585-592 | with different names the order depends only on which tools there are |
| ToolOrder.LeadingToolsAreStable | butler/agent/runtime.py:538-611 | turns that agree on the always-on tools publish the same leading block, whatever the other tools, the order of the servers and the reduction |
| ToolSurface.PublishedAre | butler/agent/runtime.py:538-561 | every tool is published as often as it is offered, unless the reduction leaves it out: a KiCad tool whose suffix is not preferred |
| ToolSurface.PublishedInOrder | butler/agent/runtime.py:564-593 | no tool that comes and goes is in front of one that does not, and among the others of its kind names ascend character by character |

## Left out

- Sockets, HTTP, SQLite, threads and the event loop themselves: calls are arbitrary outcomes, tables are sequences and maps with atomic transactions, and concurrency is a choice of the next atomic step.
- Times, retry delays and their values: only whether a timer or a retry time is set is modelled.
- `butler/voice/backends/base.py` is not part of this model: a tool-call message and its results are built as one message with the calls and one message with the id of each call; the absent text of such a message is the empty string.
- JSON decoding and `json.dumps`: decoded leaked objects and the length of a serialised message are parameters; the order of the members of an object is not modelled.
- MemoryStore.Store.RecordTurn: message metadata, schema snapshots, the session row and the refreshed summary are not modelled; they change no history that is replayed.
- MemoryStore.Store.RecordMessage: metadata, the session row and the returned row id are not modelled.
- LeakedCalls.ExtractLeakedToolCalls: the pattern that finds the tags and the decoding of what is in them are a parameter; the model begins with the decoded objects.
- The prompt of a forced retry and the built-in defaults of the settings: parameters.
- The path of `run_command_stream` that answers before the loop, and telemetry, prompt-size estimates and tool-output shaping inside it.
- Tool ids and contents that are not strings, except where the validator tests for them.
- MemoryStore.Store.AmendLastAssistantMessage: one atomic step, although the source releases its lock before it adds a missing reply.
- SchemaStrip.MeaningIsKept: `$ref` is not resolved; keywords that are copied untouched are an arbitrary function of each other and of the instance, so that copied keywords which look at rewritten siblings, such as `unevaluatedProperties` and `additionalItems`, are outside.
- ProviderStatus.Client.MarkServerFailed: the stop of the server's process and its timeout are steps of `ProviderLifecycle`, not of this method.
- JobStore.Store.UpdateStatus: only the status column; result, error and times are not modelled.
- ProviderStarts.AtMostOneStart: one provider at a time; the catalogue that `_async_list_tools` assembles over all providers is not modelled.
- JobManager.NoJobIsForgotten: safety only; nothing says that queued jobs are ever run.
- JobManager.ExecutorCalledAtMostOnce: one manager at a time uses a database, job ids are fresh, and rows are not deleted.
- Mqtt.Client.WaitMsg: blocking sockets only; the callback records its message and neither raises nor publishes.
- Mqtt.Client.WaitForAck: a negative read, which the source leaves to the socket, is a fault.
- MqttConnect.SendConnect: the four bytes of the answer are not checked, and `subscribe`, `ping` and `disconnect` are not modelled.
- JsonRepair.RepairJsonObject: ends in front of the pass that removes trailing commas, which also edits inside strings.
- LineClipper.ClipIsExact: exact reals instead of 32-bit floats, and the transformation of vertices before clipping is not modelled.
- WireMesh.ExtractEdges: normals and the cosine of the angle are parameters; reading the OBJ file, normalising vertices and the cache are not modelled.
- SettingsFile.Settings.SetSetting: encoding and the platform's own line ends; environment variables (`get_active_setting`) are not consulted.
- SignalQueue.EveryRunIsAccounted: the worker does not die and emission is enabled.
- PromptAssembly.BuildSections: lower-casing covers letters without accents; reading and caching of files is a parameter, and so is the classification of commands.
- ToolOrder.LeadingToolsAreStable: the configured prefixes and the kept KiCad suffixes are parameters.
- Phone and SMS records, the audio pipeline, the dashboard, device drivers and the launcher's process control: external effects or single branches.
