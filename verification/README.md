# Skynet: a verified model of its stateful cores

Skynet is a personal-assistant server written in Rust. This project models the parts of it that keep
state and have to keep it right, and proves what each of them promises over every input, every run or
every interleaving. It is checked with `dafny verify dfyconfig.toml`.

- **Scheduler** (`Schedule`, `Recurrence`, `Timestamp`, `SchedulerEngine`, `SchedulerRuns`). Next
  occurrences by calendar arithmetic, within the date library's range; the textual timestamps, by whose
  order the database decides what is due; the engine as a class over its job table and delivery channel;
  and whole runs in which a tick is split into its query and, per row, one update and one send, with
  handle calls, deliveries, a channel that closes, database errors, panics and crashes between any two
  steps and a wall clock that may jump. Instants are whole nanoseconds.
- **Streaming** (`Stream`, `LineBuffer`, `AnthropicStream`, `OllamaStream`, `OpenAiStream`, `ToolLoops`,
  `AgentTurns`). The line buffering all three decoders repeat, the three decoders as loops, the complete
  response the Anthropic stream must agree with, and the two separately written tool loops. JSON decoding
  is a parameter (`Codec`); what providers and tools answer is a parameter (`World`).
- **Caches and indexes beside a table** (`IdentityCache`, `UserResolver`, `ContextCache`, `ContextRuns`,
  `RenderContext`, `InvertedIndex`, `KnowledgeIndex`, `MemoryIndex`). Each cache and its table as classes,
  then as transition systems in which every section under one mutex is one step and threads interleave
  freely.
- **Compaction** (`Compaction`, `CompactionRuns`). One compaction as the program runs it, and any number
  of them at once over one session's turns and the table their facts are learned into.
- **Smaller loops** (`SessionKeys`, `SplitChunks`, `Hooks`, `Router`). Session keys, message splitting,
  the hook registry, provider failover.

`Prelude` and `Text` hold what the others share. A class method is proved equal to a function of the old
state; what the source promises is then proved about that function. The main operations are also specified
without those functions, by what a caller sees: a tick (`TickGoesOn`), the tool loops (`IsLoop`,
`IsStreamRun`), the decoders (`SaysBody`, `StreamSaysFrames`), hook emission (`BeforeRan`), a resolve
(`TablesChange`, `MissAnswersFromTable`), failover (`FirstSuccessWins`, `AttemptIs`). Several promises turned out to hold
only under a condition; those are stated as equivalences, with a member that exhibits the failure:

- `schedule.rs` casts an interval from `u64` to `i64` and adds it to the clock: intervals from 2^63 seconds
  on run in the past, and a sum outside the library's range panics, when the job is added or in a later
  tick. The reminder parser accepts them all (`IntervalOverflowsExactly`,
  `AcceptedRecurrenceIsInTheFuture`, `LongIntervalPanics`, `AddedJobPanicsTick`).
- Due rows are found by comparing texts, and a year of five digits is written with a `+`, which sorts
  before every digit: a next run in the year 10000 or later is due at every tick and missed at every
  startup (`TextSelectsDueRows`, `DueInTimeExactly`, `SlotsIncreaseExactly`, `OnceFiresOnceExactly`,
  `FarIntervalFiresAtOnce`).
- The OpenAI decoder's `break` at `[DONE]` leaves only the loop over one chunk's lines, so how the body
  was cut shows in the events - in the token counts and the stop reason as much as in the text - exactly
  when the lines after the marker, from some point up to the next marker, change the decoder
  (`ChunkingIsHiddenExactly`; for the text deltas alone, `TextHidesChunkingExactly`).
- The streaming tool loop keeps the stop reason of an earlier turn when a turn has no `Done`
  (`StopReasonIsThisTurns`).
- A session key reads back exactly when `Readable` (`ParseFormatted`); a user id ending in `:agent` does not.
- `split_chunks` slices at a byte offset although its window is described in characters: it panics
  exactly when a pass meets a text whose byte 1950 is inside a character (`PanicsExactly`, `BreakPanics`,
  `UnbrokenPanicsExactly`).
- `learn` un-indexes the new value instead of the old (`LearnAgreesExactly`, `SearchesAgreeExactly`,
  `StaleTermsStay`).
- A memory's expiry is compared as text too: one in the year 10000 or later makes the memory expired at once
  (`LiveInTime`).
- Compaction counts and fetches in two steps; two overlapping tasks can empty a session
  (`CompactionLeavesTwenty`, `LateFetchLeavesFewer`, `SeparateFetchCanEmpty`).
- Compaction ignores the errors of `learn` and deletes the turns all the same: the facts of a deleted batch
  are all known exactly when none of them depended on a call that failed (`DeletedBatchIsKnownExactly`, of
  one compaction and over runs; `FactLostWithItsTurns`, `DeletedUnlearned`).
- The context header is written before the size check, so the text keeps to 6000 bytes exactly when no header
  straddles them (`BudgetKeptExactly`, `BoundIsReached`).

Assumptions: foreign keys are enforced (identities go with their user, and cannot point at a missing one);
user, job and row ids are never reused; a memory row's category is one of the four; a session's turns are
stored in the order of their creation times; a memory's expiry, which only other writers of the table set,
is written as the program writes instants.

## Model

| member | source | states |
|---|---|---|
| Schedule.OnTheMinuteIsTimeOfDay | skynet/crates/skynet-scheduler/src/schedule.rs:24-42 | an instant shows this hour and minute with no seconds exactly when it is midnight of its day plus that time |
| Schedule.WeekdayCounts | skynet/crates/skynet-scheduler/src/schedule.rs:44-76 | weekdays change at midnight, count on by one and begin again after Sunday, and 1 January 1970 was a Thursday |
| Schedule.CastIsSigned | skynet/crates/skynet-scheduler/src/schedule.rs:22 | the cast keeps the low 64 bits and reads them as a signed number |
| Schedule.DailyIsFirst | skynet/crates/skynet-scheduler/src/schedule.rs:24-42 | a daily job's next run is the least instant after `from` at the requested time of day, or the panic when the library cannot hold it |
| Schedule.WeeklyShortPushUnreachable | skynet/crates/skynet-scheduler/src/schedule.rs:44-76 | a slot on a later weekday is always in the future, so the branch that adds `7 - days_ahead` is never taken |
| Schedule.WeeklyIsFirst | skynet/crates/skynet-scheduler/src/schedule.rs:44-76 | a weekly job's next run is the least instant after `from` at the time of day on the weekday, after clamping to 0..6, or the panic when the library cannot hold it |
| Schedule.NextRunIsFirstOccurrence | skynet/crates/skynet-scheduler/src/schedule.rs:11-84 | for once, daily and weekly jobs the next run is the first later instant the schedule names, none when it names none, and the panic when that instant, or the day a weekly job without a valid time looks at, is past the library's last |
| Schedule.NextRunIsNext | skynet/crates/skynet-scheduler/src/schedule.rs:11-84 | unless it panics, the next run of any schedule is the first later instant it names, an interval away for an interval, and none if it names none; cron schedules never run |
| Schedule.NextRunIsLater | skynet/crates/skynet-scheduler/src/schedule.rs:11-84 | a next run, when there is one, is strictly later than the clock exactly when the interval survives the signed cast as a positive number |
| Schedule.IntervalOverflowsExactly | skynet/crates/skynet-scheduler/src/schedule.rs:22 | an interval job panics exactly when the clock plus the cast interval leaves the library's range; the wider duration type never decides |
| Schedule.CalendarOverflowsExactly | skynet/crates/skynet-scheduler/src/schedule.rs:24-76 | a daily or weekly job panics exactly when all its later slots are past the library's last instant, which takes a clock in the last eight days |
| Schedule.TimelyExactly | skynet/crates/skynet-scheduler/src/schedule.rs:11-84 | from every clock up to a horizon the next run is later than the clock and before the year 10000 exactly when a check of the interval, the one-shot instant or the last calendar slot says so |
| Recurrence.AcceptedRecurrenceIsInTheFuture | skynet/crates/skynet-agent/src/tools/reminder.rs:142-180 | an accepted recurrence has a next run in the future exactly when its interval is below 2^63 and ends by the library's last instant, or a later time of day is left before that instant |
| Recurrence.RecurrenceRoundTrip | skynet/crates/skynet-agent/src/tools/reminder.rs:142-180 | a written recurrence parses to itself exactly when its numbers are in range, and otherwise fails with the error naming the number |
| Recurrence.LargestIntervalRunsInThePast | skynet/crates/skynet-agent/src/tools/reminder.rs:142-180 | the largest interval is accepted and its next run is one second before the clock, or the panic at the first representable second |
| Recurrence.LongIntervalPanics | skynet/crates/skynet-agent/src/tools/reminder.rs:142-180 | an interval of ten trillion seconds is accepted and fits the duration type, and the addition panics |
| Timestamp.TextOrderIsTimeOrder | skynet/crates/skynet-scheduler/src/engine.rs:300-305 | for UTC instants in years 0 to 9999 the stored texts compare bytewise as the instants do in time, though their fractions have 0, 3, 6 or 9 digits |
| Timestamp.TextOrderExactly | skynet/crates/skynet-scheduler/src/engine.rs:300-305 | against a clock in years 0 to 9999 any stored text compares as its instant does in time, except that instants from the year 10000 on compare as earlier than every such clock |
| Timestamp.FractionOrder | skynet/crates/skynet-scheduler/src/engine.rs:279-283 | fractions of different lengths, each followed by the offset, compare as their nanoseconds do |
| Timestamp.EarlierDayEarlierDate | skynet/crates/skynet-scheduler/src/engine.rs:279-283 | an earlier day number has an earlier year, month and day, over every leap-year rule |
| Timestamp.CivilDateIsDate | skynet/crates/skynet-scheduler/src/engine.rs:279-283 | the date by 400-year cycles, which reaches before year 0, is the date by counting years wherever both are defined |
| Timestamp.RangeIsWholeYears | skynet/crates/skynet-scheduler/src/schedule.rs:22 | the range in nanoseconds is the years -262143 to 262142, to the day |
| SchedulerEngine.TextSelectsDueRows | skynet/crates/skynet-scheduler/src/engine.rs:279-305 | with the clock in years 0 to 9999 the queries' text comparisons select the rows due, or overdue, in time, and besides every row whose next run is in the year 10000 or later |
| SchedulerEngine.DueInTimeExactly | skynet/crates/skynet-scheduler/src/engine.rs:299-305 | a pending row is selected just when its time has come, at every such clock, exactly when its next run is before the year 10000 |
| SchedulerEngine.Engine.constructor | skynet/crates/skynet-scheduler/src/engine.rs:144-147 | an engine starts with no jobs loaded, an empty channel and the capacity it was given |
| SchedulerEngine.Engine.AddJob | skynet/crates/skynet-scheduler/src/engine.rs:150-181 | adding inserts exactly one row, pending and not yet run, as described by the caller, with the next run its schedule means; a panic in computing it changes nothing, and so does a clashing key, which is the error |
| SchedulerEngine.Engine.RemoveJob | skynet/crates/skynet-scheduler/src/engine.rs:184-191 | removing deletes exactly that row, and is an error exactly when there was none |
| SchedulerEngine.Engine.MarkMissedOnStartup | skynet/crates/skynet-scheduler/src/engine.rs:278-289 | with the clock in years 0 to 9999, row by row: a pending row whose next run is in the past, or in the year 10000 or later, becomes missed, and every other row stays as it was |
| SchedulerEngine.Engine.SelectDue | skynet/crates/skynet-scheduler/src/engine.rs:299-318 | the due query lists every row its text comparison selects, each once |
| SchedulerEngine.Engine.TrySend | skynet/crates/skynet-scheduler/src/engine.rs:364-372 | sending queues the job when there is room and drops it otherwise, never blocking and never exceeding the capacity |
| SchedulerEngine.Engine.Tick | skynet/crates/skynet-scheduler/src/engine.rs:292-375 | a tick panics exactly when some due row cannot be given its next run; otherwise every due row is counted, dated and pending with the next run its schedule means, or completed at its limit or when there is none, every other row is unchanged, and the jobs sent report each such row once; a panicking tick has so dealt with some rows; the channel takes the first jobs it has room for |
| SchedulerEngine.FiredRowGoesOn | skynet/crates/skynet-scheduler/src/engine.rs:326-372 | what firing makes of a row and what the job sent reports, without reference to how they are computed |
| SchedulerEngine.PanicsInTime | skynet/crates/skynet-scheduler/src/engine.rs:326-341 | with the clock in years 0 to 9999 a due row panics exactly when it is below its limit and an interval whose end the library cannot hold |
| SchedulerEngine.FireAllIsTick | skynet/crates/skynet-scheduler/src/engine.rs:320-372 | updating the due rows one at a time, in whatever order the query chose, gives the table of the tick |
| SchedulerEngine.FiredJobsAre | skynet/crates/skynet-scheduler/src/engine.rs:320-372 | the jobs sent are exactly the due rows whose schedules decode, one each |
| SchedulerEngine.TickTwiceFiresOnce | skynet/crates/skynet-scheduler/src/engine.rs:292-375 | ticking again at the same instant fires nothing exactly when every row that fired got no next run, or one later than that instant and before the year 10000 |
| SchedulerRuns.StepKeepsInv | skynet/crates/skynet-scheduler/src/engine.rs:278-375 | every step - start with or without a sender, query, one update, one send, handle call, delivery, closing of the channel, panic, crash - keeps counts, slots and statuses consistent with the history of firings, whatever the clocks |
| SchedulerRuns.FiringGoesOn | skynet/crates/skynet-scheduler/src/engine.rs:320-372 | each firing in a run does to its row what firing is to do, to no other row anything, and is reported by its job |
| SchedulerRuns.JobsGoOn | skynet/crates/skynet-scheduler/src/engine.rs:320-351 | in every run every row holds the next run its schedule means, from its last firing or its creation, so a repeating job below its limit is never completed |
| SchedulerRuns.TableChanges | skynet/crates/skynet-scheduler/src/engine.rs:32-72 | outside its ticks a run changes the table only by marking overdue rows missed at a start, by adding one new row and by removing one |
| SchedulerRuns.FiringsMoveForward | skynet/crates/skynet-scheduler/src/engine.rs:292-375 | with clocks in any order up to a horizon, a job whose next runs stay in order and in four-digit years fires for strictly increasing slots, so at most once for each, never before its slot, and an interval job's firings are at least the interval apart |
| SchedulerRuns.OnceFiresOnce | skynet/crates/skynet-scheduler/src/engine.rs:320-351 | a one-shot job for an instant before the year 10000 fires at most once and never early |
| SchedulerRuns.OnceFiresOnceExactly | skynet/crates/skynet-scheduler/src/engine.rs:299-351 | one-shot jobs fire at most once and never early in every run exactly when their instant is before the year 10000 |
| SchedulerRuns.RunCountsAreFirings | skynet/crates/skynet-scheduler/src/engine.rs:320-351 | a live job's run count is the number of its firings, which never exceeds its limit |
| SchedulerRuns.RemovedFiresAtMostOnceMore | skynet/crates/skynet-scheduler/src/engine.rs:64-72 | a removed job never comes back, and fires once more only if the tick under way had selected it |
| SchedulerRuns.TerminalRowsStay | skynet/crates/skynet-scheduler/src/engine.rs:278-351 | a completed or missed row is never changed again, only removed |
| SchedulerRuns.EveryFiringIsAccountedFor | skynet/crates/skynet-scheduler/src/engine.rs:364-372 | firings are those dropped by a full, closed or absent channel, the queued, and those gone from the channel, which leave it and wait in it in firing order |
| SchedulerRuns.TakenExactly | skynet/crates/skynet-scheduler/src/engine.rs:364-372 | a job is taken exactly when the channel is open and has room |
| SchedulerRuns.UndisturbedTickIsTick | skynet/crates/skynet-scheduler/src/engine.rs:292-375 | the split tick run without interruption or panic is the tick of the engine |
| SchedulerRuns.SlotsIncreaseExactly | skynet/crates/skynet-scheduler/src/engine.rs:292-375 | a schedule's slots increase in every run with clocks up to a horizon exactly when its interval survives the cast as positive and its next runs stay before the year 10000, or it can never be added |
| SchedulerRuns.StuckSlotRefires | skynet/crates/skynet-scheduler/src/engine.rs:292-375 | a next run that is not later than its clock, or is in the year 10000 or later, is fired twice for one slot in some run |
| SchedulerRuns.FarIntervalFiresAtOnce | skynet/crates/skynet-agent/src/tools/reminder.rs:142-180 | the accepted recurrence of 300,000,000,000 seconds fires at once and again, 9,500 years before its slot |
| SchedulerRuns.AddedJobPanicsTick | skynet/crates/skynet-scheduler/src/schedule.rs:22 | an interval that could be added panics the tick two seconds later |
| LineBuffer.SplitConcat | skynet/crates/skynet-agent/src/anthropic_stream.rs:46-54 | splitting a text at newlines is splitting its first part and then the kept remainder with the second part |
| LineBuffer.ChunkIndependence | skynet/crates/skynet-agent/src/anthropic_stream.rs:46-85 | a decoder that treats groups of lines compositionally ends in the same state for every cutting of a text into chunks |
| LineBuffer.LineByLineIsCompositional | skynet/crates/skynet-agent/src/ollama.rs:185-225 | handling lines one at a time is compositional, so such a decoder is chunk-independent |
| Stream.ParsesEvent | skynet/crates/skynet-agent/src/stream.rs:33-40 | a written event line is read back as that event |
| Stream.ParsesData | skynet/crates/skynet-agent/src/stream.rs:33-40 | a written data line is read back as that payload |
| Stream.ParsesExactly | skynet/crates/skynet-agent/src/stream.rs:33-40 | a line is an event, a payload or nothing exactly by its prefix |
| AnthropicStream.BlockParser.ParseDataBlock | skynet/crates/skynet-agent/src/anthropic_stream.rs:101-208 | one payload updates the parser's fields and yields at most one event, as the decoder's step says, whatever was sent before |
| AnthropicStream.ProcessLines | skynet/crates/skynet-agent/src/anthropic_stream.rs:54-85 | the complete lines of a chunk are decoded in order, carrying the event name from line to line |
| AnthropicStream.ProcessStream | skynet/crates/skynet-agent/src/anthropic_stream.rs:9-97 | the events sent are those of the text received, then the transport error, or else one final `Done` |
| AnthropicStream.ChunkingIsInvisible | skynet/crates/skynet-agent/src/anthropic_stream.rs:46-85 | however the body is cut into chunks, the events are those of the body in one chunk |
| AnthropicStream.ParseResponse | skynet/crates/skynet-agent/src/anthropic.rs:211-235 | a complete response's text is the texts at exactly the positions of its text blocks, joined in order, its calls those of its tool blocks in order, and its model, counts and stop reason its own |
| AnthropicStream.ActsSayMessage | skynet/crates/skynet-agent/src/anthropic_stream.rs:101-208 | for any block list and any cutting of text and tool input into deltas, the stream's texts, calls and final fields are those of the complete response |
| AnthropicStream.StreamingRefinesResponse | skynet/crates/skynet-agent/src/anthropic_stream.rs:9-208 | the same from the bytes: any framing of the message's events by their protocol names, with others between, and any chunking says what the complete response says |
| AnthropicStream.StreamSaysFrames | skynet/crates/skynet-agent/src/anthropic_stream.rs:9-208 | for any frames and any chunking, the events but for the tool calls are the errors and the pieces of text and thinking of the frames, in order, and the last has the model and input tokens of the last message start and the last stop reason and output tokens given |
| OllamaStream.ProcessStream | skynet/crates/skynet-agent/src/ollama.rs:156-236 | the events sent are text deltas, none empty, that join to the contents of the replies not done; then the transport error, or `Done` with the first model name and the counts and reason of the last reply that is done |
| OllamaStream.DecodeSaysReplies | skynet/crates/skynet-agent/src/ollama.rs:185-236 | the same of the text received, however it is cut |
| OllamaStream.ChunkingIsInvisible | skynet/crates/skynet-agent/src/ollama.rs:185-225 | however the body is cut into chunks, the events are those of the body in one chunk |
| OpenAiStream.ProcessStream | skynet/crates/skynet-agent/src/openai.rs:172-266 | the events sent are text deltas, none empty, that join to the contents of the choices heard, those in payloads before the first end marker of each chunk; then the transport error, or `Done` with the last usage, prompt and completion tokens, and the last finish reason |
| OpenAiStream.ProcessLines | skynet/crates/skynet-agent/src/openai.rs:209-255 | of a chunk's lines, those before its first end marker are decoded in order and the rest are skipped |
| OpenAiStream.ProcessReply | skynet/crates/skynet-agent/src/openai.rs:218-248 | a payload's usage counts, then its choices in order |
| OpenAiStream.PlayTells | skynet/crates/skynet-agent/src/openai.rs:218-248 | what the decoder has after some lines are their contents, last usage and last finish reason |
| OpenAiStream.MeaningIs | skynet/crates/skynet-agent/src/openai.rs:209-225 | a data line is the end marker when its payload is `[DONE]`, otherwise what its payload decodes to; any other line is nothing |
| OpenAiStream.BeforeEndIs | skynet/crates/skynet-agent/src/openai.rs:209-222 | what is heard of a chunk is its lines up to the first end marker, or all of them |
| OpenAiStream.HeardAtOnce | skynet/crates/skynet-agent/src/openai.rs:204-255 | a body in one chunk is heard up to its first end marker |
| OpenAiStream.ChunkingIsHiddenExactly | skynet/crates/skynet-agent/src/openai.rs:172-266 | all events, token counts and stop reason included, are the same for every cutting exactly when the lines after the first `[DONE]`, played from any point up to the next one, leave the decoder as it was |
| OpenAiStream.CutShows | skynet/crates/skynet-agent/src/openai.rs:204-255 | for every point among the lines after `[DONE]` some cutting plays the lines from there on |
| OpenAiStream.QuietTailHidesChunking | skynet/crates/skynet-agent/src/openai.rs:204-255 | so when only lines that change no decoder follow `[DONE]`, every cutting gives the same events |
| OpenAiStream.SomeCuttingDiffers | skynet/crates/skynet-agent/src/openai.rs:204-255 | when text follows `[DONE]`, cutting the body into single characters shows it, and one chunk hides it |
| OpenAiStream.TextHidesChunkingExactly | skynet/crates/skynet-agent/src/openai.rs:204-255 | the text deltas alone are the same for every cutting exactly when no line after the first `[DONE]` carries text |
| ToolLoops.AssistantMessage | skynet/crates/skynet-agent/src/tools/tool_loop.rs:54-75 | the assistant message of a tool turn is its text, if any, then its calls |
| ToolLoops.ExecuteCalls | skynet/crates/skynet-agent/src/tools/tool_loop.rs:77-120 | the calls run in order, an unknown tool giving an error result, and the user message holds their results in order |
| ToolLoops.RunToolLoop | skynet/crates/skynet-agent/src/tools/tool_loop.rs:20-109 | as long as a turn has calls and stop reason `tool_use`, the next transcript is the last and two messages: the text and calls, and for each call in order its id and what its tool returned for its input, or the unknown-tool error; the first other turn, or the 25th, is the result; the called tools are those of all turns that asked |
| ToolLoops.ToolRunIs | skynet/crates/skynet-agent/src/tools/tool_loop.rs:40-109 | the same from any turn on |
| ToolLoops.CalledRunIs | skynet/crates/skynet-agent/src/tools/tool_loop.rs:77-84 | the called tools are those of every turn that asks for some, the 25th included, in order and with repetitions |
| ToolLoops.ReceiveTurn | skynet/crates/skynet-gateway/src/ws/dispatch.rs:379-440 | a streamed turn ends in the first error event received, or the failed request, or else takes every event, including those drained after the request resolved |
| ToolLoops.HandleStreaming | skynet/crates/skynet-gateway/src/ws/dispatch.rs:358-527 | the same for streamed turns, for at most 10: text, calls and fields are those of the events, the stop reason the last one seen, and the result the error, or the text of all turns joined and the last `Done` |
| ToolLoops.StreamRunIs | skynet/crates/skynet-gateway/src/ws/dispatch.rs:358-527 | the same from any turn on |
| ToolLoops.TurnsAgree | skynet/crates/skynet-gateway/src/ws/dispatch.rs:379-440 | a streamed turn yields the text, calls and final fields of the complete response, wherever the request resolved among its events |
| ToolLoops.LoopsSendTheSame | skynet/crates/skynet-gateway/src/ws/dispatch.rs:358-527 | the two loops send identical transcripts up to the shorter limit, and when the other stops within it both end alike, the accumulated text being the texts of all turns taken, joined |
| ToolLoops.StopReasonIsThisTurns | skynet/crates/skynet-gateway/src/ws/dispatch.rs:358-450 | the stop reason that decides a turn is that turn's exactly when the turn has a `Done` event |
| ToolLoops.SentIsPaired | skynet/crates/skynet-agent/src/tools/tool_loop.rs:40-95 | every transcript sent is the start followed by assistant calls and user results whose ids match in order |
| ToolLoops.StreamSentIsPaired | skynet/crates/skynet-gateway/src/ws/dispatch.rs:450-527 | the same of the streaming loop, whatever its events |
| ToolLoops.StripThinkingBlocks | skynet/crates/skynet-agent/src/thinking.rs:59-76 | in place, every assistant message made of blocks loses its thinking blocks and nothing else changes |
| ToolLoops.StripRemovesThinking | skynet/crates/skynet-agent/src/thinking.rs:59-76 | stripping leaves the subsequence of the blocks at exactly the positions that are not thinking |
| ToolLoops.StripKeepsPairing | skynet/crates/skynet-agent/src/thinking.rs:59-76 | stripping keeps every call paired with its result |
| AgentTurns.LoopsAgreeOnAnyBytes | skynet/crates/skynet-gateway/src/ws/dispatch.rs:358-527 | from the bytes of the responses, however cut, to the transcripts: both loops send the same, and every transcript is paired |
| IdentityCache.MapAndListAgree | skynet/crates/skynet-users/src/resolver.rs:46-48 | the map is as large as the key list, so the capacity test on one bounds the other and eviction's drain is in range |
| IdentityCache.InsertedIs | skynet/crates/skynet-users/src/resolver.rs:165-186 | inserting keeps keys and list in step and within 256, and of the other entries drops exactly the first 128 of the list, only from a full cache and for a new key |
| IdentityCache.InvalidatedIs | skynet/crates/skynet-users/src/resolver.rs:139-150 | invalidating a user drops every entry of that user and no other |
| IdentityCache.RemovedIs | skynet/crates/skynet-users/src/resolver.rs:158-163 | removing a key drops that entry only and keeps keys and list in step |
| IdentityCache.IdentityMap.constructor | skynet/crates/skynet-users/src/resolver.rs:52-58 | the cache starts empty and well formed |
| IdentityCache.IdentityMap.Remove | skynet/crates/skynet-users/src/resolver.rs:158-163 | the list is filtered and the map entry removed in step |
| IdentityCache.IdentityMap.Insert | skynet/crates/skynet-users/src/resolver.rs:165-186 | refresh in place, or evict when full and append, leaving the cache well formed |
| IdentityCache.IdentityMap.EvictOldest | skynet/crates/skynet-users/src/resolver.rs:176-182 | draining the front of the list and removing those keys one by one drops exactly the oldest half |
| IdentityCache.IdentityMap.InvalidateUser | skynet/crates/skynet-users/src/resolver.rs:139-150 | walking the list while removing from the map drops exactly the user's entries from both |
| UserResolver.StepKeepsInv | skynet/crates/skynet-users/src/resolver.rs:65-150 | every step of every thread keeps the cache well formed and coherent with the identities table |
| UserResolver.TablesChange | skynet/crates/skynet-users/src/resolver.rs:80-134 | an identity's user changes only by an allowed re-link to a user that exists, by deletion of the user, or from none by a resolve that found it absent, which alone creates a user |
| UserResolver.CacheChanges | skynet/crates/skynet-users/src/resolver.rs:139-186 | the cache changes only by storing an entry, by dropping a key re-linked or gone, and by dropping an invalidated user's entries |
| UserResolver.GoneHitIsMiss | skynet/crates/skynet-users/src/resolver.rs:69-79 | a hit answers exactly when its user still exists; otherwise the entry is dropped and the resolve goes on as a miss |
| UserResolver.MissAnswersFromTable | skynet/crates/skynet-users/src/resolver.rs:80-97 | a resolve that missed answers, and caches, the user the table gave the identity when it took the lock, unless that user was deleted meanwhile or the identity had none: then a new user, whose it is from then on |
| UserResolver.UndisturbedHit | skynet/crates/skynet-users/src/resolver.rs:65-77 | a resolve of a cached identity whose user exists, in steps, undisturbed, answers that user and changes nothing |
| UserResolver.UndisturbedMiss | skynet/crates/skynet-users/src/resolver.rs:80-97 | a resolve that misses, in steps, undisturbed, caches the identity's user, or a new one that it is given |
| UserResolver.UndisturbedLink | skynet/crates/skynet-users/src/resolver.rs:101-134 | a re-link in steps, undisturbed, gives the identity to its target and drops its entry when it is allowed and the target exists, and otherwise changes nothing |
| UserResolver.CacheIsCoherent | skynet/crates/skynet-users/src/resolver.rs:65-190 | in every interleaving the cache is bounded and duplicate-free, and each entry is the table's, or its user was deleted elsewhere, or a re-link of that key is between its update and its invalidation |
| UserResolver.CacheEqualsTable | skynet/crates/skynet-users/src/resolver.rs:65-190 | without outside deletions every cached entry equals the table whenever the database lock is free |
| UserResolver.EntryAtMeans | skynet/crates/skynet-users/src/resolver.rs:44-48 | that entry is the step before which the key was absent and since which it has been present |
| UserResolver.OrderIsByEntry | skynet/crates/skynet-users/src/resolver.rs:44-48 | in every run the list is in the order in which its keys last entered the cache, so an eviction drops those that have been there longest |
| UserResolver.HitsAnswerFromTheTable | skynet/crates/skynet-users/src/resolver.rs:65-77 | the user a cache hit answers was the table's when that resolve started, unless a re-link of the key had not yet returned |
| RenderContext.RenderMemories | skynet/crates/skynet-memory/src/manager.rs:536-556 | the loop writes the longest prefix of the memories that fits 6000 bytes, then, if something was cut, the header the next one would have begun |
| RenderContext.FittingIsTheCut | skynet/crates/skynet-memory/src/manager.rs:549-553 | exactly the prefixes up to the cut fit the budget |
| RenderContext.Layout | skynet/crates/skynet-memory/src/manager.rs:536-564 | the four headers in priority order, and a line with its key and its value |
| RenderContext.SizeIsBounded | skynet/crates/skynet-memory/src/manager.rs:536-556 | the text is at most 6016 bytes, and at most 6015 for memories in category order |
| RenderContext.BudgetKeptExactly | skynet/crates/skynet-memory/src/manager.rs:536-556 | the text keeps to its 6000 bytes exactly when no header written after a text that fits goes beyond them |
| RenderContext.FullIsSections | skynet/crates/skynet-memory/src/manager.rs:536-564 | without a budget they are all written so |
| RenderContext.BoundIsReached | skynet/crates/skynet-memory/src/manager.rs:536-556 | 6015 bytes are reached by memories in category order, whose second header straddles the budget |
| RenderContext.SortedTextIsSections | skynet/crates/skynet-memory/src/manager.rs:536-564 | memories in category order are written as one section per category, in priority order, each header once, for the longest prefix that fits; what is left out adds at most the header of the first memory left out, if its category is new |
| ContextCache.UsableMeans | skynet/crates/skynet-memory/src/manager.rs:514-525 | a cached context is usable exactly when it is less than 300 seconds old, though the age is rounded toward zero |
| ContextCache.QueryOrderIs | skynet/crates/skynet-memory/src/manager.rs:185-192 | rows come by category, instructions first, and within one by falling confidence |
| ContextCache.LiveInTime | skynet/crates/skynet-memory/src/manager.rs:184 | with the clock in years 0 to 9999 a row is live until it expires in time, and never if that is in the year 10000 or later, though the query compares texts |
| ContextCache.ContextsAreSmall | skynet/crates/skynet-memory/src/manager.rs:180-206 | a context built from any table is at most 6015 bytes |
| ContextCache.LiveRowsChangeExactly | skynet/crates/skynet-memory/src/manager.rs:184 | with clocks in years 0 to 9999 a user's live rows differ between two instants exactly when one, of a year before 10000, expires between them |
| ContextCache.StoredIs | skynet/crates/skynet-memory/src/manager.rs:209-220 | storing keeps the cache within 256 and drops no other user's context but, when full, the evicted one |
| ContextCache.MemoryManager.constructor | skynet/crates/skynet-memory/src/manager.rs:29-34 | a manager starts over its table with an empty cache |
| ContextCache.MemoryManager.Learn | skynet/crates/skynet-memory/src/manager.rs:38-108 | a row held with higher confidence is kept and nothing changes; otherwise the row is written and the user's cached context dropped |
| ContextCache.MemoryManager.Forget | skynet/crates/skynet-memory/src/manager.rs:111-148 | the row is deleted and the cached context dropped, or nothing changes and it is not found |
| ContextCache.MemoryManager.GetCached | skynet/crates/skynet-memory/src/manager.rs:514-525 | the cached context, if there is one still usable |
| ContextCache.MemoryManager.OldestKey | skynet/crates/skynet-memory/src/manager.rs:212-215 | the scan finds a context built no later than any other |
| ContextCache.MemoryManager.BuildUserContext | skynet/crates/skynet-memory/src/manager.rs:173-222 | a usable cached context is answered unchanged; otherwise the live rows are rendered in the query's order and counted, and the context stored after evicting an oldest entry from a full cache |
| ContextRuns.StepKeepsInv | skynet/crates/skynet-memory/src/manager.rs:38-222 | every step of every thread keeps each cached context current for its user |
| ContextRuns.UndisturbedHit | skynet/crates/skynet-memory/src/manager.rs:173-177 | a build answers the cached context exactly while it is under 300 seconds old, and then changes nothing |
| ContextRuns.UndisturbedBuild | skynet/crates/skynet-memory/src/manager.rs:173-222 | a build that misses, in steps, undisturbed, stores the context the manager stores |
| ContextRuns.UndisturbedLearn | skynet/crates/skynet-memory/src/manager.rs:38-108 | learning in steps, undisturbed, does what the manager does |
| ContextRuns.UndisturbedForget | skynet/crates/skynet-memory/src/manager.rs:111-148 | so is forgetting |
| ContextRuns.TableChanges | skynet/crates/skynet-memory/src/manager.rs:52-133 | the table changes only by learning, which keeps a row held with more confidence and keeps expiries, and by forgetting |
| ContextRuns.CacheIsCurrent | skynet/crates/skynet-memory/src/manager.rs:38-222 | in every interleaving, when the database lock is free each cached context renders its user's current rows that were live when it was queried, and the cache holds at most 256 |
| ContextRuns.HitsAreCurrent | skynet/crates/skynet-memory/src/manager.rs:173-177 | a hit is under 300 seconds old and is what a rebuild now could give, or a row of that user is live at one of query and hit and not the other, having expired between them - unless a change to that user has not yet returned |
| ContextRuns.MissesAreCurrent | skynet/crates/skynet-memory/src/manager.rs:179-221 | a context answered after a miss renders the rows the table holds at that moment which were live at its query |
| ContextRuns.ConfidenceNeverFalls | skynet/crates/skynet-memory/src/manager.rs:62-89 | over any run a row not forgotten stays, keeps its expiry and never loses confidence |
| InvertedIndex.SearchFindsExactly | skynet/crates/skynet-memory/src/manager.rs:409-416 | an index in agreement with its table finds, for each term, exactly the rows that now contain it |
| KnowledgeIndex.WriteKeepsAgreement | skynet/crates/skynet-memory/src/manager.rs:349-400 | one write keeps topics unique, ids fresh and the index equal to a rebuilt one |
| KnowledgeIndex.WritesKeepAgreement | skynet/crates/skynet-memory/src/manager.rs:349-400 | so does any sequence of writes |
| KnowledgeIndex.SearchIsCurrent | skynet/crates/skynet-memory/src/manager.rs:349-429 | after any writes a one-term search finds exactly the entries whose current topic, content or tags contain the term |
| KnowledgeIndex.LastWriteWins | skynet/crates/skynet-memory/src/manager.rs:349-400 | each topic holds what was last written to it, and nothing else is held |
| KnowledgeIndex.KnowledgeBase.constructor | skynet/crates/skynet-memory/src/db.rs:45-65 | an empty base agrees with its empty index |
| KnowledgeIndex.KnowledgeBase.KnowledgeWrite | skynet/crates/skynet-memory/src/manager.rs:349-400 | update and re-index, or insert and index, keeping agreement |
| MemoryIndex.LearnAgreesExactly | skynet/crates/skynet-memory/src/manager.rs:52-103 | `learn` leaves the index as a rebuilt one exactly when it inserts, is refused, or no term of the old value is rarer in the new |
| MemoryIndex.SearchesAgreeExactly | skynet/crates/skynet-memory/src/manager.rs:52-103 | every search after `learn` is right exactly when it inserts, is refused, or every term of the old value is in the new value or the key |
| MemoryIndex.TableIsManagers | skynet/crates/skynet-memory/src/manager.rs:52-147 | to the table alone, learning and forgetting here are those of the memory manager |
| MemoryIndex.StaleTermsStay | skynet/crates/skynet-memory/src/manager.rs:79-88 | after an overwrite a search finds what it should and, besides, the overwritten row for every term of its old value |
| MemoryIndex.ForgetKeepsAgreement | skynet/crates/skynet-memory/src/manager.rs:111-148 | `forget` un-indexes the row's own value, so agreement is kept and the row is gone |
| MemoryIndex.IndexedMemories.constructor | skynet/crates/skynet-memory/src/db.rs:16-41 | an empty table agrees with its empty index |
| MemoryIndex.IndexedMemories.Learn | skynet/crates/skynet-memory/src/manager.rs:52-103 | the table and index after learning, including the delete with the new value |
| MemoryIndex.IndexedMemories.Forget | skynet/crates/skynet-memory/src/manager.rs:121-147 | the table and index after forgetting, and whether there was a row |
| Compaction.JsonPartIsOutermost | skynet/crates/skynet-agent/src/pipeline/compact.rs:103-108 | the part parsed is bracketed and holds every bracketed part of the reply |
| Compaction.FactIs | skynet/crates/skynet-agent/src/pipeline/compact.rs:127-146 | a fact is worth keeping when it has a key and a value, and is learned for the session under its key in the category it names, or else as a fact |
| Compaction.KeptCountIs | skynet/crates/skynet-agent/src/pipeline/compact.rs:133-150 | the facts counted as saved are those worth keeping |
| Compaction.FactsOnlyAdd | skynet/crates/skynet-agent/src/pipeline/compact.rs:127-146 | compaction changes only rows of its session named by a kept fact, and none held with more confidence, whichever facts fail to be learned |
| Compaction.FactsAreKnown | skynet/crates/skynet-agent/src/pipeline/compact.rs:127-146 | exactly the keys known before, and those of a fact with a key and a value whose learning succeeded, are known afterwards, with at least confidence 0.7 |
| Compaction.RowsAreLastFacts | skynet/crates/skynet-agent/src/pipeline/compact.rs:127-146 | each row says what the last fact learned under its key says, or what it said before if there is none or it was held with more confidence |
| Compaction.DeletedBatchIsKnownExactly | skynet/crates/skynet-agent/src/pipeline/compact.rs:127-150 | all facts worth keeping of a deleted batch are known exactly when each was known before or learned, perhaps through another fact of its key, without failure |
| Compaction.FactLostWithItsTurns | skynet/crates/skynet-agent/src/pipeline/compact.rs:138-150 | any new fact that fails to be learned is nowhere in the table while its turns are gone and it counts as saved |
| Compaction.WithoutPrefix | skynet/crates/skynet-memory/src/manager.rs:294-305 | deleting a prefix of the turns by their ids leaves the rest |
| Compaction.Session.constructor | skynet/crates/skynet-agent/src/pipeline/compact.rs:31-34 | a session starts with its stored turns and the shared memory manager |
| Compaction.Session.DeleteTurns | skynet/crates/skynet-memory/src/manager.rs:294-305 | exactly the turns with those ids are deleted, the others keeping their order |
| Compaction.Session.Compact | skynet/crates/skynet-agent/src/pipeline/compact.rs:31-163 | below 40 turns, or when the call or the parse fails, nothing happens; otherwise the kept facts are learned in order, as far as learning succeeds, and exactly the oldest 20 turns are gone even when it fails |
| CompactionRuns.DeletedOnlyAfterLearning | skynet/crates/skynet-agent/src/pipeline/compact.rs:54-162 | in every interleaving a task deletes only after fetching a batch of at most 20, parsing the reply to it and handing every fact worth keeping to `learn`, whose errors it ignores, and deletes that batch, once |
| CompactionRuns.KnownExactly | skynet/crates/skynet-agent/src/pipeline/compact.rs:127-146 | so for any key not forgotten, at any time in any run |
| CompactionRuns.DeletedBatchIsKnownExactly | skynet/crates/skynet-agent/src/pipeline/compact.rs:127-150 | in every interleaving without forgetting, the facts worth keeping of a deleted batch are all known exactly when each was known from the start, was learned by some task without failure, or by the rest of the program |
| CompactionRuns.DeletedUnlearned | skynet/crates/skynet-agent/src/pipeline/compact.rs:138-150 | from any state a counted task can fail to learn a new fact and delete its batch, with the fact nowhere in the table |
| CompactionRuns.UndisturbedIsCompacted | skynet/crates/skynet-agent/src/pipeline/compact.rs:31-163 | one task alone, from its count to its end, leaves the turns and the table of one compaction |
| CompactionRuns.FetchedWereOldest | skynet/crates/skynet-memory/src/manager.rs:260-290 | every batch fetched was the oldest turns at that moment |
| CompactionRuns.TurnsAreConserved | skynet/crates/skynet-memory/src/manager.rs:225-305 | the turns present are, in order, all there ever were but those deleted |
| CompactionRuns.CompactionLeavesTwenty | skynet/crates/skynet-agent/src/pipeline/compact.rs:35-61 | if every fetch sees at least 40 turns, overlapping compactions never leave fewer than 20 |
| CompactionRuns.LateFetchLeavesFewer | skynet/crates/skynet-agent/src/pipeline/compact.rs:35-61 | from any state, a counted task whose fetch sees some but fewer than 40 turns can go on to leave fewer than 20 |
| CompactionRuns.SeparateFetchCanEmpty | skynet/crates/skynet-agent/src/pipeline/compact.rs:35-61 | two tasks that both count 40 turns can between them delete all 40 |
| SessionKeys.FormatParsed | skynet/crates/skynet-sessions/src/types.rs:40-86 | formatting what parsed gives the text back |
| SessionKeys.FormatIs | skynet/crates/skynet-sessions/src/types.rs:40-45 | the parts of a formatted key, in order |
| SessionKeys.ParseFormatted | skynet/crates/skynet-sessions/src/types.rs:40-86 | parsing what was formatted gives the key back exactly when the parts are non-empty, the agent has no colon and the user id does not make the marker appear early |
| SessionKeys.FormatInjective | skynet/crates/skynet-sessions/src/types.rs:40-45 | two readable keys with one text are the same key |
| SessionKeys.OverlapBreaksRoundTrip | skynet/crates/skynet-sessions/src/types.rs:51-86 | a user id ending in `:agent` never reads back |
| SplitChunks.CutShortens | skynet/crates/skynet-discord/src/send.rs:14-24 | every pass shortens what remains, even when it cuts at the very start |
| SplitChunks.SplitChunks | skynet/crates/skynet-discord/src/send.rs:6-31 | the chunks as the recursive splitting gives them, or the panic |
| SplitChunks.CutIsGood | skynet/crates/skynet-discord/src/send.rs:14-24 | a pass takes a chunk that fits, then a blank gap, and cuts with no gap only a full window without newline or space |
| SplitChunks.SplitIsGood | skynet/crates/skynet-discord/src/send.rs:6-31 | every chunk fits 1950 bytes, the text is the chunks with blank gaps between, and only the first chunk of a non-empty text can be empty |
| SplitChunks.AsciiSplits | skynet/crates/skynet-discord/src/send.rs:6-31 | text of one-byte characters never panics |
| SplitChunks.PassIs | skynet/crates/skynet-discord/src/send.rs:14-24 | a pass over a long text takes exactly 1950 bytes, cuts them at the last newline, else at the last space, else at their end, and drops the whitespace after the cut |
| SplitChunks.PanicsExactly | skynet/crates/skynet-discord/src/send.rs:6-31 | a text panics exactly when some number of passes leaves a text longer than a chunk whose byte 1950 is inside a character |
| SplitChunks.UnbrokenPanicsExactly | skynet/crates/skynet-discord/src/send.rs:6-31 | a text without whitespace panics exactly when some positive multiple of 1950 below its length in bytes is inside a character |
| SplitChunks.RepeatedSplitsExactly | skynet/crates/skynet-discord/src/send.rs:6-31 | a text of one repeated character panics exactly when the character takes four bytes and the text needs splitting |
| SplitChunks.BreakPanics | skynet/crates/skynet-discord/src/send.rs:14-18 | any text longer than a chunk whose byte 1950 is inside a character panics |
| Hooks.StableSortIsStable | skynet/crates/skynet-hooks/src/engine.rs:25-31 | the sort orders by priority and keeps the order within each |
| Hooks.StableSortIsUnique | skynet/crates/skynet-hooks/src/engine.rs:25-31 | no other list does, so any stable sort computes it |
| Hooks.ListIsSortedSurvivors | skynet/crates/skynet-hooks/src/engine.rs:25-41 | after any registrations and removals the list is the stable sort of the surviving hooks in registration order |
| Hooks.Registry.constructor | skynet/crates/skynet-hooks/src/engine.rs:18-22 | a registry starts empty |
| Hooks.Registry.Register | skynet/crates/skynet-hooks/src/engine.rs:25-31 | the new hook is inserted behind all of its priority or lower and before all the others, which stay as they were |
| Hooks.Registry.Unregister | skynet/crates/skynet-hooks/src/engine.rs:34-41 | exactly the hooks at the positions with another name survive, in their order |
| Hooks.Registry.EmitBefore | skynet/crates/skynet-hooks/src/engine.rs:70-101 | exactly the hooks of the event and Before timing are called, in list order, each on the payload of the last answer before it that modifies it, or the original; the first block ends them and is the outcome, and the payload left is the last modification |
| Hooks.Registry.Emit | skynet/crates/skynet-hooks/src/engine.rs:47-64 | unless a Before handler blocked, exactly the After hooks of the event are started, each on the payload so left |
| Hooks.ChainRan | skynet/crates/skynet-hooks/src/engine.rs:70-101 | a chain of contexts is a run of handlers each on the payload of the last modification before it |
| Hooks.ChainIsDetermined | skynet/crates/skynet-hooks/src/engine.rs:70-101 | the chain and its outcome are fixed by the handlers, so the relation `EmitBefore` ensures has one solution |
| Router.Send | skynet/crates/skynet-agent/src/router.rs:53-107 | the calls run through the slots in order, each slot up to its first success, its first rate limit or its last retry; `send_stream` is the same loop |
| Router.FirstSuccessWins | skynet/crates/skynet-agent/src/router.rs:53-164 | the answer is the first success in slot and attempt order among attempts not barred by a rate limit, and an error only when there is none |
| Router.FailoverIsBounded | skynet/crates/skynet-agent/src/router.rs:53-164 | at most the configured attempts are made, in order and without repetition, none in a slot after its rate limit, and the result is the last call's |
| Router.ErrorsAreSilent | skynet/crates/skynet-agent/src/anthropic.rs:96-142 | a provider's stream fails, if it does, before its first event |
| Router.AttemptIs | skynet/crates/skynet-agent/src/openai.rs:77-122 | a streaming attempt succeeds exactly on a status of 200 to 299, is rate-limited exactly on 429 and not from Ollama, with the wait its provider's header means, and otherwise fails with the status and body |
| Router.OneAttemptIsSeen | skynet/crates/skynet-agent/src/router.rs:109-164 | a stream's receiver sees the events of the attempt that succeeded and of no other, and nothing if all failed |

## Left out

- SchedulerEngine.Engine.AddJob: the fresh UUID is a parameter; the handle's `add_job` at lines 32-62 does the same to the table on another connection and appears as the `Add` step of `SchedulerRuns`.
- SchedulerRuns.StepKeepsInv: `run_count` is unbounded, so its 32-bit wrap-around is not modelled.
- Timestamp.TextOrderIsTimeOrder: leap seconds are not modelled.
- Schedule.NextRunIsFirstOccurrence: cron schedules never run in the code, and so have no next run here.
- AnthropicStream.ProcessStream: the early return when the receiver is gone is not modelled; the receiver takes every event.
- ToolLoops.HandleStreaming: the UI events it forwards, and saving the exchange to the database afterwards, are not modelled.
- Router.Send: the back-off sleeps between attempts are not modelled.
- ContextRuns.CacheIsCurrent: confidences are reals, so a NaN confidence is not modelled.
- MemoryIndex.IndexedMemories.Learn: the full-text engine is a multiset of postings per row and column, where the engine keeps one position list per term and row and the newest wins; `SearchesAgreeExactly` speaks only of what searches find, which does not depend on that. Ranking, phrase queries and its on-disk segments are not modelled.
- Compaction.Session.Compact: a `learn` that fails here has written nothing; one that fails between its writes is not modelled.
- HTTP, WebSocket, Discord and terminal transport, processes, file tools, plugins, configuration: input and output only.
- JSON encoding and decoding, SQLite and the date library: parameters, maps and integers.
- `handle_streaming_inline` and the OpenAI-compatible endpoint: they repeat `handle_streaming` or are thin.
- Poisoned mutexes after a panic, and database errors in the middle of an operation, except the aborted tick.
- Claims of the text that the code does not make good: called tools without duplicates (tool_loop.rs:18), re-running missed jobs, the `Running` and `Failed` statuses.
- Command safety lists, webhook and handshake authentication, permission tables, enum display and parse pairs, thinking budgets, prompt tiers, reconnect delays: finite or without a hard law.
