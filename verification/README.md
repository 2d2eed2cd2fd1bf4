# LLMBenchLab verification model

A Dafny model of the parts of LLMBenchLab whose correctness depends on interleavings,
fault placement, chunking or exact arithmetic, with proofs that they keep their promises.
`dafny verify dfyconfig.toml` checks the whole project.

| part | files | what is proved |
|---|---|---|
| Streaming events | `SseLines`, `SseFraming`, `SseChunks`, `SseConsumer`, `SseRoundTrip`, `SseForms` | the incremental consumer of arbitrary chunks against "split the whole stream once", with the exact boundary condition under which they differ; every way of writing an event read back |
| Stream accumulators | `StreamFields`, `ChatAccumulator`, `MessagesAccumulator`, `ResponsesAccumulator` | which runs of provider events are accepted, what they have built and why others are refused, up to the whole stream of bytes |
| Provider attempts | `Attempts`, `AttemptOutcomes`, `MockAttempts`, `AttemptLedger` | the retry loop under every fault placement, exactly by what the environment answers and against a contract monitor; its effect on the ledger's counters |
| Governance ledger | `Ledger`, `LedgerImport`, `LedgerConservation`, `LedgerLaws` | the importer's single mutating pass against the declarative reconciliation query; conservation; the overdraw migration |
| Table summary | `Sorting`, `Lexicographic`, `Digest`, `Numerals`, `Rounding`, `DecimalText`, `Scalars`, `JsonText`, `Utf8`, `Canonical`, `CanonicalForm`, `Gathering`, `TableSummary` | the bytes that are hashed, kind of value by kind of value; they identify a table's rows up to a stated equivalence |
| Import outcome | `ImportOutcome` | every exit code against what happened to the target |
| Credential keyring | `Keyring`, `KeyringSafety`, `KeyringPermanence`, `KeyringProgress`, `KeyringOutcomes` | any number of initializers racing on one directory, one system call per step, every call able to fail; exactly when an installed keyring is there to stay |
| Worker progress | `WorkerProgress`, `WorkerInterleavings`, `WorkerGuarantees` | the recorder's methods; every interleaving of note, start, flush, stop and cancellation, with threads that outlive it; exactly when a note is lost |
| Measurements | `DecimalTolerance`, `Percentile` | rounded decimal comparison against the exact inequality; interpolated order statistics |

Objects that the program updates in place (the line buffer, the stream consumer, the
accumulators, the importer's counters, the worker recorder and its row) are classes whose
methods are proved against functions on values; the theorems are about those functions.

## Where the code does not do what one might expect

Each of these is a theorem here, with a concrete run or input.

- Chunking is observable in two cases. The check of the unprocessed remainder counts a
  held-back CR, so an event of exactly the event limit is rejected when a chunk ends on the
  first CR of its blank line (`ChunkingMatters`). And the wire limit is checked before the
  lines of the chunk that breaks it, so what precedes in the same chunk is not looked at
  (`WireMatters`). `OneOutcomeIff` says exactly which streams are affected.
- At end of file an unterminated event is dispatched, where section 9.2.6 of the WHATWG HTML
  Living Standard drops it. `DroppingIff` says exactly when the two rules agree, and
  `UnterminatedExample` is an input on which they do not.
- Exit code 2 ("import failed") can be reported over a fully imported target: when COMMIT
  takes effect without acknowledgement and closing the connection raises while that
  exception unwinds. `RunImport` gives the exact condition.
- Cancelling a worker's flush or stop abandons its thread: the recorder restores events only
  for `Exception`, and the thread may still fail, or commit after a later flush. The first
  loses its notes; the second moves `last_seen_at` back and loses the later ones.
  `LostExactlyWhen` and `RowStepIff` give the exact conditions; without a cancellation
  neither happens.
- An initializer that returns False may have validated a keyring that its creator then
  takes back. `PermanentIff` says exactly when a keyring is there to stay.
- Decimals of more than 28 significant digits are rounded before they are summarised, so
  different values can have one text.
- The numeric score can accept an answer just outside the tolerance when the difference or
  the relative tolerance has more digits than the working precision (`RoundingCanAccept`,
  `RoundedToleranceCanAccept`); it never rejects one inside. `WronglyAcceptedIff` says
  exactly when: when the two round alike.

## Reading notes

- Limits, constants and branch order are those of the code. Bytes are integers below 256;
  text in provider events may hold unpaired surrogates, text in table rows may not.
- One consumer models both the chat and the typed stream. It is parametrised by the
  accumulator, and by whether `event:` lines are read.
- Provider attempts take one answer per await from an environment: a transition that raises
  says whether it took effect all the same. Settling after a cancellation is such a choice.
- A keyring step is one system call chosen by a schedule, which also says whether it fails
  and how much a short write wrote. Directory entries map names to inodes.
- The decimal scores and percentiles are stated over unbounded integers and reals. The two
  scripts' percentile functions differ only in how they refuse bad input; one function models
  both.

## Model

| member | source | states |
|---|---|---|
| `SseLines.Pop` | backend/app/adapters/openai_compatible.py:875-896 | popping shortens the buffer (so the loop ends), takes exactly up to the first break, eats an LF after a CR, holds back a trailing CR unless at end of file |
| `SseLines.LineBuffer.constructor` | backend/app/adapters/openai_compatible.py:787 | an empty buffer |
| `SseLines.LineBuffer.Extend` | backend/app/adapters/openai_compatible.py:832 | appends the chunk |
| `SseLines.LineBuffer.PopLine` | backend/app/adapters/openai_compatible.py:875-896 | the in-place pop: the line returned and the bytes left are those of the specification |
| `SseLines.PopStable` | backend/app/adapters/openai_compatible.py:884-888 | a line popped early is the line that would be popped with more bytes present: holding back the CR makes the cut final |
| `SseLines.SplitOpenAppend` | backend/app/adapters/openai_compatible.py:832-839 | feeding `a` then `b` splits into the same lines and remainder as feeding `a + b` |
| `SseLines.SplitAllAppend` | backend/app/adapters/openai_compatible.py:857-861 | splitting the whole stream is splitting a prefix and then its remainder with the rest |
| `SseLines.ResidualIsOneLine` | backend/app/adapters/openai_compatible.py:857-861 | what is left open by the chunks is at most one line at end of file |
| `SseFraming.AtEof` | backend/app/adapters/openai_compatible.py:864-873 | the end of the file settles every stream: a settled one is unchanged, one with nothing pending is incomplete |
| `SseFraming.ProcessLinesAppend` | backend/app/adapters/openai_compatible.py:833-839 | processing lines in two batches is processing them in one; a stopped run ignores the rest |
| `SseFraming.ProcessLinesSane` | backend/app/adapters/openai_compatible.py:807-812 | between lines an event under construction never exceeds the event limit |
| `SseChunks.StoppedIsFinal` | backend/app/adapters/openai_compatible.py:838-839 | once done or failed, no later bytes change the outcome, and the whole-stream reference agrees |
| `SseChunks.OverfullMeansTooLarge` | backend/app/adapters/openai_compatible.py:840-844 | when the residual check fires on anything but a held-back CR at the limit, the whole-stream reference is too large as well, whatever follows |
| `SseChunks.ChunkingTheorem` | backend/app/adapters/openai_compatible.py:824-873 | for every accumulator, chat or typed, and every chunking within the wire limit: the outcome is that of splitting the whole stream once, except exactly when a chunk ends on the held-back CR of an event measuring the limit; then it is too large |
| `SseChunks.ChunkInvarianceIff` | backend/app/adapters/provider_protocols.py:197-248 | within the wire limit every chunking agrees with splitting the stream once if and only if no prefix ends on such a held-back CR, or it is too large anyway |
| `SseChunks.OneOutcomeIff` | backend/app/adapters/openai_compatible.py:824-873 | any stream whatsoever has one outcome for all chunkings if and only if: within the wire limit, no proper prefix ends on a held-back CR at the limit, or the stream itself does, or it is too large anyway; past it, no prefix within the limit is settled or overfull (or it failed with that same limit) |
| `SseChunks.PastWireIff` | backend/app/adapters/openai_compatible.py:826-844 | past the wire limit the outcome depends on chunking unless nothing settles it before the limit does: the wire check precedes the lines of its chunk |
| `SseChunks.CutThere` | backend/app/adapters/openai_compatible.py:840-844 | cutting a stream at such a CR rejects it, whatever follows |
| `SseChunks.DoneWithinWire` | backend/app/adapters/openai_compatible.py:826-831 | a stream past the wire limit is delivered only if it was complete within the limit |
| `SseChunks.DeclaredLength` | backend/app/adapters/openai_compatible.py:770-781 | a declared length past the wire limit is refused unread, and any other changes nothing |
| `SseConsumer.Consumer.constructor` | backend/app/adapters/provider_protocols.py:140-145 | the initial state of the consumer |
| `SseConsumer.Consumer.DispatchEvent` | backend/app/adapters/provider_protocols.py:147-152 | hands the collected lines to the accumulator exactly when there are any, then clears lines and name |
| `SseConsumer.Consumer.ProcessLine` | backend/app/adapters/provider_protocols.py:154-195 | the in-place line handler has the effect of the specification's line step |
| `SseConsumer.Consumer.ProcessChunk` | backend/app/adapters/provider_protocols.py:197-218 | the in-place chunk handler has the effect of one feed of the machine |
| `SseConsumer.Consumer.Run` | backend/app/adapters/provider_protocols.py:120-248 | the whole imperative consumer computes the outcome that the chunking theorem speaks about |
| `SseRoundTrip.LineRoundTrip` | backend/app/adapters/openai_compatible.py:875-896 | printed lines split back into themselves if and only if no line ended by a lone CR is followed by something printed as an LF |
| `SseRoundTrip.ProcessEvent` | backend/app/adapters/provider_protocols.py:154-195 | the lines of one printed event make exactly one accumulator call, with its joined data and its name |
| `SseRoundTrip.EventRoundTrip` | backend/app/adapters/provider_protocols.py:147-248 | any events printed with any mix of LF, CRLF and CR endings are delivered exactly from every chunking, except that a cut at the held-back CR of an event of exactly the limit makes the stream too large |
| `SseRoundTrip.AnyChunksRoundTrip` | backend/app/adapters/provider_protocols.py:147-248 | events below the limit are delivered exactly from any chunks whatsoever |
| `SseRoundTrip.BelowLimitNeverHeld` | backend/app/adapters/openai_compatible.py:840-844 | no prefix of a stream whose events are below the limit is a held-back CR at the limit |
| `SseRoundTrip.UnterminatedRoundTrip` | backend/app/adapters/openai_compatible.py:857-865 | an event that the end of the file cuts short, with or without its last line's ending, is delivered like the others |
| `SseRoundTrip.DroppingIff` | backend/app/adapters/openai_compatible.py:864-873 | the code agrees with the standard's rule of dropping the pending event if and only if none is pending, or it neither finishes the accumulator nor is refused for another reason than an incomplete stream |
| `SseRoundTrip.DroppingUnseenIff` | backend/app/adapters/provider_protocols.py:506-524 | the same up to the text of the error: a pending event refused as incomplete by the accumulator is reported with the same type |
| `SseRoundTrip.UnterminatedExample` | backend/app/adapters/openai_compatible.py:864-873 | one unterminated event finishes the code's stream and leaves the standard's incomplete |
| `SseRoundTrip.RecorderDelivers` | backend/app/adapters/openai_compatible.py:801-803 | the recording accumulator gets precisely the payloads, in order |
| `SseRoundTrip.ChunkingMatters` | backend/app/adapters/openai_compatible.py:840-844 | concretely: an event of exactly the limit ended by CR CR LF is delivered from one chunk and rejected from two |
| `SseRoundTrip.WireMatters` | backend/app/adapters/openai_compatible.py:826-831 | concretely: a complete event and 64 MiB after it are delivered from two chunks and rejected from one |
| `SseForms.EveryLineIsAnItem` | backend/app/adapters/provider_protocols.py:168-195 | every line but the blank one is a data field, a name field (each with a space after the colon, without one, or without a colon), a comment or another field |
| `SseForms.ReadItem` | backend/app/adapters/provider_protocols.py:154-195 | what each such line does: `data:` followed by a value that does not start with a space collects that value, `data: ` the rest, a bare `data` the empty value; names likewise; anything else only counts towards the size; past the limit the stream is too large |
| `SseForms.ReadMark` | backend/app/adapters/provider_protocols.py:157-160 | a leading byte order mark is skipped and its bytes are counted |
| `SseForms.JoinIsPrinting` | backend/app/adapters/provider_protocols.py:150 | the data lines handed over are joined as printed, with an LF between them |
| `SseForms.ReadItems` | backend/app/adapters/provider_protocols.py:154-195 | any sequence of such lines collects its data values in order and its last name, and is refused exactly when a name cannot be decoded |
| `SseForms.FormsRoundTrip` | backend/app/adapters/provider_protocols.py:120-248 | a stream of events written in any of these forms, with comments and foreign fields between, a byte order mark first or not, any line endings and the last event perhaps unterminated, is delivered exactly from every chunking, except for the cut at a held-back CR |
| `StreamFields.AppendText` | backend/app/adapters/provider_protocols.py:281-317 | text is accepted exactly when it is encodable text that keeps the whole within the response limit; the byte counter stays the UTF-8 length |
| `StreamFields.Utf8SizeIsLength` | backend/app/adapters/provider_protocols.py:299-302 | the size counted is the length of the UTF-8 encoding |
| `StreamFields.AgreeStep` | backend/app/adapters/openai_compatible.py:197-211 | capturing field by field succeeds exactly when all fields of the run agree, and captures the first |
| `StreamFields.AgreeSnoc` | backend/app/adapters/provider_protocols.py:882-895 | one more field after an agreeing run is captured exactly when the longer run agrees, with the same result |
| `StreamFields.ResolveType` | backend/app/adapters/provider_protocols.py:94-117 | the event type is the body's or the event name's, resolved exactly when one is given and they do not conflict |
| `ChatAccumulator.Accumulator.constructor` | backend/app/adapters/openai_compatible.py:86-98 | the empty accumulator |
| `ChatAccumulator.Accumulator.ConsumeEvent` | backend/app/adapters/openai_compatible.py:103-195 | the in-place update, partial updates on failure included, is the specification's step |
| `ChatAccumulator.SelectedMeans` | backend/app/adapters/openai_compatible.py:213-220 | the choice that counts is the first of index zero, or the first of all when there is none |
| `ChatAccumulator.RunMeaning` | backend/app/adapters/openai_compatible.py:103-211 | a run succeeds if and only if its events are acceptable (said of the events alone), and then holds the concatenated text with its UTF-8 length, the first captured ids and the last usage |
| `ChatAccumulator.RunStops` | backend/app/adapters/openai_compatible.py:103-195 | the first event that is not acceptable ends the run, with the failure that it and what came before call for |
| `ChatAccumulator.DeliverIsRun` | backend/app/adapters/openai_compatible.py:793-845 | delivering decoded events and the end marker is running the accumulator on them |
| `ChatAccumulator.ChatStreamDelivers` | backend/app/adapters/openai_compatible.py:762-873 | end to end, for every way of writing the stream and every chunking: too large exactly when cut at a held-back CR at the limit; otherwise done if and only if the events are acceptable, with their summary |
| `MessagesAccumulator.Accumulator.constructor` | backend/app/adapters/provider_protocols.py:780-793 | the empty accumulator |
| `MessagesAccumulator.Accumulator.ConsumeInitialContent` | backend/app/adapters/provider_protocols.py:934-962 | appends the initial text blocks in place, stopping at the first bad one |
| `MessagesAccumulator.Accumulator.StartMessage` | backend/app/adapters/provider_protocols.py:832-838 | the in-place effect of message_start, partial on failure, is the specification's |
| `MessagesAccumulator.Accumulator.ConsumeEvent` | backend/app/adapters/provider_protocols.py:798-906 | the in-place update is the specification's step |
| `MessagesAccumulator.StepOrder` | backend/app/adapters/provider_protocols.py:816-906 | deltas and message_stop are accepted only after message_start, which is accepted once and alone sets the ids |
| `MessagesAccumulator.UsageGrows` | backend/app/adapters/provider_protocols.py:920-932 | usage is overwritten member by member: the last event that supplies a member decides it |
| `MessagesAccumulator.RunMeaning` | backend/app/adapters/provider_protocols.py:798-962 | an accepted run has the text in order within the limit, last-writer usage, exactly one message_start before everything that needs it, and is done only after it and a message_stop |
| `MessagesAccumulator.RunIff` | backend/app/adapters/provider_protocols.py:798-962 | a run is accepted if and only if its events, by the types they declare, are well formed, ordered, agree on the stop reason and fit the limit; other types change nothing; the stop reason kept is the agreed one |
| `MessagesAccumulator.KindMeans` | backend/app/adapters/provider_protocols.py:806-906 | the accumulator tells the declared event types apart by their names, and every other type apart from them |
| `MessagesAccumulator.RunStops` | backend/app/adapters/provider_protocols.py:798-962 | the first event that is not acceptable ends the run, with the failure its declared type calls for |
| `MessagesAccumulator.DeliverIsRun` | backend/app/adapters/provider_protocols.py:147-218 | delivering events and their names through the typed consumer is running the accumulator on them |
| `MessagesAccumulator.MessagesStreamDelivers` | backend/app/adapters/provider_protocols.py:1076-1092 | end to end, for every way of writing the stream and every chunking: too large exactly when cut at a held-back CR at the limit; otherwise done if and only if the events are acceptable, having built what they say |
| `ResponsesAccumulator.Accumulator.constructor` | backend/app/adapters/provider_protocols.py:467-479 | the empty accumulator |
| `ResponsesAccumulator.Accumulator.CaptureResponse` | backend/app/adapters/provider_protocols.py:589-605 | captures ids, model and usage in place |
| `ResponsesAccumulator.Accumulator.ConsumeEvent` | backend/app/adapters/provider_protocols.py:484-587 | the in-place update is the specification's step |
| `ResponsesAccumulator.KindMeans` | backend/app/adapters/provider_protocols.py:492-541 | the accumulator tells the declared event types apart by their names, and every other type apart from them |
| `ResponsesAccumulator.OutputCollected` | backend/app/adapters/provider_protocols.py:320-347 | the final output is read exactly when every item and block is sound, and is all their text in order |
| `ResponsesAccumulator.RunMeaning` | backend/app/adapters/provider_protocols.py:484-551 | before completion a run succeeds if and only if its events are acceptable by the types they declare: output_text.delta adds its text, created and in_progress carry a response, other types change nothing; it then holds the deltas in order with their size, the agreed id and model and the last usage, never a sum |
| `ResponsesAccumulator.ConcludeMeaning` | backend/app/adapters/provider_protocols.py:549-587 | the completing event captures id, model and usage like the others, and supplies the text only when there were no deltas |
| `ResponsesAccumulator.CompletedRun` | backend/app/adapters/provider_protocols.py:484-587 | a stream that completes is accepted if and only if all its events, the completing one included, are acceptable and there is some text; its text is the deltas or else exactly the final output, its id, model and usage those of the whole stream |
| `ResponsesAccumulator.RunStops` | backend/app/adapters/provider_protocols.py:492-587 | the first event that is not acceptable ends the run, with the failure its declared type calls for: provider errors by their codes, an incomplete response by its detail, text past the limit, an invalid stream otherwise |
| `ResponsesAccumulator.DeliverIsRun` | backend/app/adapters/provider_protocols.py:147-218 | delivering events and their names through the typed consumer is running the accumulator on them |
| `ResponsesAccumulator.ResponsesStreamDelivers` | backend/app/adapters/provider_protocols.py:661-677 | end to end, for every way of writing the stream and every chunking: too large exactly when cut at a held-back CR at the limit; otherwise done if and only if the stream delivers, with its result |
| `Attempts.FirstAttempt` | backend/app/adapters/openai_compatible.py:662-678 | the first ordinal is the context's with a controller and 1 without one, and exists exactly for a matching context within 1 .. max_retries + 1 |
| `Attempts.FinishAttempt` | backend/app/adapters/base.py:46-63 | one settlement through the controller, or none without one |
| `Attempts.HandleResponse` | backend/app/adapters/openai_compatible.py:482-660 | the handlers make exactly the specified calls for every answer and every settlement failure |
| `Attempts.RunAttempt` | backend/app/adapters/openai_compatible.py:462-658 | one iteration makes exactly the specified calls |
| `Attempts.RunAttempts` | backend/app/adapters/openai_compatible.py:461-660 | the loop over ordinals is the recursive specification |
| `Attempts.RunGenerate` | backend/app/adapters/openai_compatible.py:426-660 | the whole call, invalid contexts included |
| `Attempts.AttemptObserved` | backend/app/provider_attempts.py:69-98 | one attempt is accepted by the contract monitor: at most one permit open, one settlement, retry only after a returned conservative settlement |
| `Attempts.LifecycleHolds` | backend/app/adapters/openai_compatible.py:461-660 | every run under every fault placement is accepted by the monitor (ordinals rise by one within the limit, actual settlement last and with both counts) and ends in the phase its result implies; the final AssertionError is unreachable |
| `Attempts.UncontrolledRuns` | backend/app/adapters/openai_compatible.py:461-660 | without a controller no controller call is made and the loop never falls through |
| `Attempts.FinishedExactlyOnce` | backend/app/provider_attempts.py:69-98 | every granted permit is finished exactly once, and never if its send-start outcome is unknown |
| `Attempts.BackoffDoubles` | backend/app/adapters/openai_compatible.py:725-731 | the delay starts at the base, doubles with every failure up to the cap, and never falls |
| `AttemptOutcomes.RunCalls` | backend/app/adapters/openai_compatible.py:461-660 | said of the environment alone: attempt n is followed by n + 1 exactly when n <= max_retries, the send was reached, the answer is a transport failure or a retryable adapter failure, it was settled and the delay was not interrupted; and the calls of each attempt made, with disposition, outcome and usage for every answer |
| `AttemptOutcomes.RunEnds` | backend/app/adapters/openai_compatible.py:482-660 | a run ends with what the environment answered its last attempt, for every answer and failure |
| `AttemptOutcomes.LastIsUnique` | backend/app/adapters/openai_compatible.py:461-660 | that last attempt is unique, so the result is determined |
| `AttemptOutcomes.ReturnsIff` | backend/app/adapters/openai_compatible.py:644-658 | a usage is returned if and only if the first attempt without a transient failure was answered with it and settled |
| `MockAttempts.OpenPermit` | backend/app/adapters/mock.py:158-177 | reserve and mark, with every failure |
| `MockAttempts.Answer` | backend/app/adapters/mock.py:179-231 | the mock's handlers, with every settlement failure |
| `MockAttempts.RunMock` | backend/app/adapters/mock.py:146-247 | the mock's own code makes exactly the calls and gives exactly the result of the retry loop on its last allowed attempt |
| `AttemptLedger.TotalUpdate` | scripts/phase2_capacity.py:262-300 | replacing one ledger row changes each derived total by the difference of the rows |
| `AttemptLedger.RefWeight` | scripts/phase2_capacity.py:239-262 | a row adds its contribution to a scope, level or minute once per reference to it |
| `AttemptLedger.MoveDelta` | backend/app/governance/repository.py:1740-1843 | every legal state move changes every derived counter of every scope, level and minute by the fixed amounts the stored counters are changed by; starting a send turns a reserved request into a consumed one and keeps what is reserved |
| `AttemptLedger.StartCarriesOver` | backend/app/governance/repository.py:917-931 | a send that starts in a later minute takes its request and reserved tokens out of the minute of its reservation, and brings a consumed request and the reserved tokens to its own |
| `AttemptLedger.AttemptEffect` | backend/app/provider_attempts.py:39-44 | one attempt leaves at most one row, in the state its faults imply |
| `AttemptLedger.RunAppends` | backend/app/adapters/openai_compatible.py:461-660 | a run only appends rows |
| `AttemptLedger.OnlyLastMayBeActive` | backend/app/adapters/openai_compatible.py:614-622 | every row but the newest is settled conservatively |
| `AttemptLedger.RunSends` | backend/app/provider_attempts.py:82-98 | without an open permit, what the consumed rows of any scope, level or minute refer to is what was sent to it |
| `AttemptLedger.SendsAreConsumed` | backend/app/provider_attempts.py:82-98 | in particular there are as many consumed rows as sends |
| `AttemptLedger.RunBalances` | backend/app/db/import_sqlite.py:340-382 | after a run with no open permit every reserved counter of every scope, level and minute is back at its start, and consumed requests rose by one per send and reference, in the minute in which the send started |
| `AttemptLedger.ScopeBalances` | backend/app/db/import_sqlite.py:340-364 | when the attempts share their scopes, a scope's consumed requests rose by the number of sends, per reference |
| `AttemptLedger.NoOpenPermitIff` | backend/app/adapters/base.py:71-99 | a run leaves no open permit if and only if its last attempt reserved nothing or its final transition took effect |
| `Ledger.TotalAppend` | scripts/phase2_capacity.py:262-336 | a filtered aggregate over two batches is the sum |
| `Ledger.FactsAppend` | scripts/phase2_capacity.py:239-262 | references of two batches of reservations are those of both |
| `LedgerImport.ScopeLedgerCounters.constructor` | backend/app/db/import_sqlite.py:104-115 | zero counters |
| `LedgerImport.ScopeLedgerCounters.Accumulate` | backend/app/db/import_sqlite.py:340-364 | one accumulation adds the reservation's contribution to each of ten fields, the overdraw flag included |
| `LedgerImport.BucketLedgerCounters.constructor` | backend/app/db/import_sqlite.py:132-139 | zero counters |
| `LedgerImport.BucketLedgerCounters.Accumulate` | backend/app/db/import_sqlite.py:367-382 | one accumulation adds the contribution to each of six fields |
| `LedgerImport.NewScopeCounters` | backend/app/db/import_sqlite.py:402-403 | one fresh, distinct counter object per scope row |
| `LedgerImport.NewBucketCounters` | backend/app/db/import_sqlite.py:404-412 | one fresh, distinct counter object per minute row |
| `LedgerImport.ScopeMatches` | backend/app/db/import_sqlite.py:426-428 | true exactly when a stored scope has the reference's id and type |
| `LedgerImport.AddToScopes` | backend/app/db/import_sqlite.py:434-439 | accumulating into one scope's object leaves every scope's object at its sum, the new reference included |
| `LedgerImport.AddToBuckets` | backend/app/db/import_sqlite.py:440-453 | the same for the minutes, unless the reference has no minute row, which is reported |
| `LedgerImport.AddReference` | backend/app/db/import_sqlite.py:422-453 | one reference: refused exactly when its scope is missing or wrongly typed; otherwise every counter object is at its sum again |
| `LedgerImport.AddReferences` | backend/app/db/import_sqlite.py:422-453 | the inner loop over a reservation's references, stopping at the first missing or wrongly typed scope |
| `LedgerImport.RebuildCounters` | backend/app/db/import_sqlite.py:413-453 | after the pass each counter object equals the declarative filtered sum for its scope or minute |
| `LedgerImport.CompareScopes` | backend/app/db/import_sqlite.py:455-473 | true exactly when every stored scope row equals its counters |
| `LedgerImport.CompareBuckets` | backend/app/db/import_sqlite.py:480-493 | true exactly when every stored minute row equals its counters |
| `LedgerImport.ValidateMaterializations` | backend/app/db/import_sqlite.py:385-493 | the verdict, in order: scope drift, minute drift, accepted, each exactly characterised by the declarative sums |
| `LedgerImport.AcceptanceIsNoDrift` | scripts/phase2_capacity.py:392-446 | zero drift in the reconciliation query with correctly typed references holds if and only if the importer accepts and no stored row is unreferenced |
| `LedgerConservation.PartitionSum` | scripts/phase2_capacity.py:262-336 | sums over groups that split the facts add up to the sum over all |
| `LedgerConservation.ScopesConserve` | backend/app/db/import_sqlite.py:415-473 | once accepted, global, provider and model scopes each total the ledger in every column, and run scopes its run-bound part |
| `LedgerConservation.MinutesConserve` | backend/app/db/import_sqlite.py:440-493 | once accepted, a scope's requests and tokens are the sum over its minutes |
| `LedgerConservation.MigrationAgrees` | backend/alembic/versions/20260830_0007_repair_observational_overdraw.py:72-122 | the migration's EXISTS expression is the flag the importer rebuilds, and upgrading only clears flags |
| `LedgerConservation.RecomputeOverdrawn` | backend/alembic/versions/20260830_0007_repair_observational_overdraw.py:52-137 | refuses exactly while a reservation is active, else rewrites every scope's flag and nothing else |
| `LedgerConservation.UpgradeRepairs` | backend/alembic/versions/20260830_0007_repair_observational_overdraw.py:125-141 | after the upgrade the importer's scope check passes if and only if the counters agreed in everything but the flag |
| `LedgerLaws.RowAddsToScope` | scripts/phase2_capacity.py:262-285 | a new row adds, once per reference, its amounts to every column of the scope: a table of plain numbers by state |
| `LedgerLaws.RowAddsToMinute` | scripts/phase2_capacity.py:311-336 | and to a minute of the scope exactly when the policy and window are the row's |
| `LedgerLaws.OverdrawnIff` | scripts/phase2_capacity.py:286-305 | a scope is overdrawn exactly when a row that refers to it was charged more than it reserved by at least one: output always, input and cost when the run bounded its input |
| `LedgerLaws.RowOverdraws` | backend/app/db/import_sqlite.py:316-364 | a new row marks exactly the scopes it refers to, exactly when it was overcharged |
| `LedgerLaws.WithinReservation` | backend/app/db/import_sqlite.py:316-337 | a row charged at most what it reserved, equality included, leaves every flag as it was |
| `LedgerLaws.ConservativeNeverOverdraws` | backend/app/governance/repository.py:1796-1800 | a conservative settlement at what was reserved never overdraws |
| `LedgerLaws.AcceptedFlag` | backend/app/db/import_sqlite.py:455-473 | the importer accepts a stored flag only if it says whether such a row exists |
| `LedgerLaws.MigrationFlag` | backend/alembic/versions/20260830_0007_repair_observational_overdraw.py:72-122 | the migration writes that flag; its downgrade counts every input as bounded |
| `Sorting.SortSorted` | backend/app/db/import_sqlite.py:217 | the sorted payloads are ordered |
| `Sorting.SortCanonical` | backend/app/db/import_sqlite.py:217 | two collections sort alike if and only if they are the same multiset |
| `Lexicographic.LexMeans` | backend/app/db/import_sqlite.py:217 | the order is decided at the first place where two byte strings differ, a prefix first |
| `Digest.BigEndianRoundTrip` | backend/app/db/import_sqlite.py:218 | a length that fits its prefix is read back |
| `Digest.BigEndianAt` | backend/app/db/import_sqlite.py:218 | the most significant byte of a length comes first |
| `Digest.DigestPayloads` | backend/app/db/import_sqlite.py:215-220 | the loop feeds the hash the frames of the sorted payloads, or overflows exactly when a length does not fit |
| `Digest.UnframeFrames` | backend/app/db/import_sqlite.py:217-219 | frames are uniquely decodable |
| `Digest.FramesUnframe` | backend/app/db/import_sqlite.py:217-219 | every readable stream is the stream of what is read from it |
| `Digest.StreamIdentifiesMultiset` | backend/app/db/import_sqlite.py:215-220 | the bytes hashed are equal if and only if the payloads are the same multiset |
| `Digest.SameStream` | backend/app/db/import_sqlite.py:215-220 | the order of payloads never matters, overflow included |
| `JsonText.CharRoundTrip` | backend/app/db/import_sqlite.py:206-211 | every character's escape is read back as that character |
| `JsonText.Escapes` | backend/app/db/import_sqlite.py:206-211 | exactly quotes, backslashes and control characters are escaped, the short forms where there are any |
| `JsonText.RoundTrip` | backend/app/db/import_sqlite.py:206-212 | the parser undoes the compact JSON printer on every nested value, before any following text |
| `JsonText.PrintInjective` | backend/app/db/import_sqlite.py:206-212 | different values print differently |
| `Utf8.RoundTrip` | backend/app/db/import_sqlite.py:212 | decoding undoes UTF-8 encoding on every text |
| `Utf8.ShortestForm` | backend/app/db/import_sqlite.py:212 | every character has its shortest encoding |
| `Numerals.IntRoundTrip` | backend/app/db/import_sqlite.py:173-174 | the decimal text of every integer reads back as it |
| `Numerals.HexTextInjective` | backend/app/db/import_sqlite.py:190-191 | the hexadecimal text identifies the bytes |
| `Numerals.HexTextAt` | backend/app/db/import_sqlite.py:190-191 | two lower-case digits for each byte, the high one first |
| `Scalars.FloatTextIff` | backend/app/db/import_sqlite.py:180-184 | two doubles have one text if and only if they are the same up to the sign of zero |
| `Scalars.YearOfDay` | backend/app/db/import_sqlite.py:185-189 | the calendar year and day of a day number count back to it |
| `Scalars.InstantInjective` | backend/app/db/import_sqlite.py:185-189 | the UTC text with microseconds identifies the instant |
| `DecimalText.TextIff` | backend/app/db/import_sqlite.py:175-179 | two decimals have one text if and only if they are the same number after rounding to 28 significant digits, zeros of either sign alike |
| `DecimalText.TextExactIff` | backend/app/db/import_sqlite.py:175-179 | up to 28 digits the text identifies the number exactly |
| `DecimalText.TwentyNineDigits` | backend/app/db/import_sqlite.py:178 | with 29 digits it does not: 10^28 and 10^28 + 1 print alike |
| `Canonical.EncodesAccepted` | backend/app/db/import_sqlite.py:164-203 | the encoder raises on exactly the values that are not accepted, at any depth |
| `Canonical.ObjectsAgree` | backend/app/db/import_sqlite.py:192-198 | dictionaries encode alike if and only if they have equal entries, whatever their key order |
| `Canonical.EncodeIff` | backend/app/db/import_sqlite.py:164-203 | two accepted values have the same encoding if and only if they are equivalent |
| `Canonical.PayloadIff` | backend/app/db/import_sqlite.py:206-212 | down to the bytes: equal payloads if and only if equivalent |
| `CanonicalForm.PlainForms` | backend/app/db/import_sqlite.py:164-172 | null, booleans, enumerations and text with their tags |
| `CanonicalForm.IntegerForm` | backend/app/db/import_sqlite.py:173-174 | an integer is tagged with its numeral, without leading zeros, after a minus sign exactly when negative |
| `CanonicalForm.DecimalForm` | backend/app/db/import_sqlite.py:175-179 | a decimal shows, after its sign, its value to 28 digits in plain notation without a trailing fractional zero |
| `CanonicalForm.FloatForm` | backend/app/db/import_sqlite.py:180-184 | a double is its sign, leading digit, thirteen hexadecimal fraction digits and signed binary exponent, each read back |
| `CanonicalForm.TimeForm` | backend/app/db/import_sqlite.py:185-189 | a moment is `YYYY-MM-DDTHH:MM:SS.ffffffZ`, whose fields name its instant in UTC by the calendar |
| `CanonicalForm.BytesForm` | backend/app/db/import_sqlite.py:190-191 | bytes are tagged with their hexadecimal digits |
| `CanonicalForm.ObjectForm` | backend/app/db/import_sqlite.py:192-198 | a dictionary is tagged with one key and value list per entry, in ascending order of the keys |
| `CanonicalForm.ArrayForm` | backend/app/db/import_sqlite.py:199-200 | lists and tuples are tagged with their items' encodings in order |
| `TableSummary.CanonicalTableSummary` | backend/app/db/import_sqlite.py:223-253 | the loop computes the specified summary and raises exactly where it does |
| `TableSummary.RowPayloadIff` | backend/app/db/import_sqlite.py:237-247 | rows have equal payloads if and only if they agree on every selected column |
| `TableSummary.StreamIdentifiesRows` | backend/app/db/import_sqlite.py:223-253 | two tables' hashed bytes are equal if and only if every row occurs equally often in both |
| `TableSummary.EqualSummaries` | backend/app/db/import_sqlite.py:720-735 | equal summaries hold the same rows equally often |
| `TableSummary.ReorderedSummary` | backend/app/db/import_sqlite.py:223-253 | reordering the rows leaves the whole summary unchanged |
| `TableSummary.SummarizeIff` | backend/app/db/import_sqlite.py:223-253 | there is a summary exactly with a primary key, complete rows, accepted values and lengths that fit |
| `TableSummary.RowPayloadExists` | backend/app/db/import_sqlite.py:237-247 | a row has a payload exactly when no column is missing and every value is accepted at any depth |
| `TableSummary.SummaryParts` | backend/app/db/import_sqlite.py:249-253 | the row count is that of the rows; the key digest's bytes identify the primary keys and the row digest's all columns |
| `ImportOutcome.CopyTransaction` | backend/app/db/import_sqlite.py:829-858 | what the transaction block raises and what the target then holds |
| `ImportOutcome.CopyPhase` | backend/app/db/import_sqlite.py:826-868 | what the handlers around it turn that into |
| `ImportOutcome.VerifyPhase` | backend/app/db/import_sqlite.py:870-895 | any Exception after COMMIT becomes committed-but-unverified |
| `ImportOutcome.RunImport` | backend/app/db/import_sqlite.py:818-984 | for every placement of failures each exit code has an exact condition: 0 committed and reconciled, 3 acknowledged, 4 exactly an issued and unacknowledged COMMIT; 2 an ordinary failure, over an imported target exactly in a hidden commit |
| `ImportOutcome.HiddenCommitExample` | backend/app/db/import_sqlite.py:851-868 | the exception is real: COMMIT took effect unacknowledged, the close failed while unwinding, exit 2 |
| `KeyringSafety.LocalStep` | scripts/ensure_credential_keys.py:331-541 | every step of a process keeps its own invariant and only does to the directory what the others may rely on |
| `KeyringSafety.InvStep` | scripts/ensure_credential_keys.py:331-541 | the invariant of any number of processes survives every step of any of them |
| `KeyringSafety.DestinationComplete` | scripts/ensure_credential_keys.py:331-448 | in every interleaving with every failure, an existing destination holds one process's whole secured payload, or the file that was there first, which is never removed or replaced |
| `KeyringSafety.AtMostOneCreates` | scripts/ensure_credential_keys.py:490-541 | at most one process ever returns True, and none when the keyring existed |
| `KeyringSafety.CreatedForever` | scripts/ensure_credential_keys.py:385-448 | after a process returned True the destination keeps its inode and content forever |
| `KeyringSafety.RetryIsClean` | scripts/ensure_credential_keys.py:394-487 | whenever a retryable failure is signalled the process owns neither a temporary name nor the destination link, within the attempt bound |
| `KeyringSafety.FalseHasValidated` | scripts/ensure_credential_keys.py:222-287 | a process that returns False has read a valid payload and leaves no temporary name |
| `KeyringPermanence.KeepsLink` | scripts/ensure_credential_keys.py:394-448 | a process past the last call that could remove its link keeps it, whatever it does or fails next |
| `KeyringPermanence.ExistingStays` | scripts/ensure_credential_keys.py:222-287 | a keyring that existed at the start keeps its name, inode and content in every run |
| `KeyringPermanence.StaysForever` | scripts/ensure_credential_keys.py:394-448 | such a process's complete file stays the destination under every later schedule and failure |
| `KeyringPermanence.CanGo` | scripts/ensure_credential_keys.py:394-401 | a linked process that can still reach a removing call has a schedule of failures that removes the destination |
| `KeyringPermanence.PermanentIff` | scripts/ensure_credential_keys.py:490-541 | in every reachable state the destination is permanent if and only if it existed from the start or its creator can no longer reach a removing call (a predicate on its program counter and fault flags) |
| `KeyringProgress.SoloCreates` | scripts/ensure_credential_keys.py:331-448 | alone and without faults a process creates the keyring and returns True |
| `KeyringProgress.SoloKeeps` | scripts/ensure_credential_keys.py:222-287 | alone on a valid keyring a process keeps it, tightens its mode and returns False |
| `KeyringProgress.FalseIsNoPromise` | scripts/ensure_credential_keys.py:299-318 | a run that shows it: False is returned, and then the creator's rollback removes the file that was validated |
| `KeyringOutcomes.FailedCall` | scripts/ensure_credential_keys.py:331-448 | whichever call of a creation attempt fails, a process that can clean up gives back every name it made, then retries if the failure may be retried (after the file was made, and not at its close) and otherwise raises |
| `KeyringOutcomes.RetryCreates` | scripts/ensure_credential_keys.py:469-487 | after a retryable failure of the first or second attempt the next, undisturbed, creates the keyring; after the third it raises and leaves nothing |
| `KeyringOutcomes.FailedCleanUp` | scripts/ensure_credential_keys.py:394-431 | a clean-up call that fails leaves a mark or raises at once |
| `KeyringOutcomes.FailingStays` | scripts/ensure_credential_keys.py:408-431 | and such a process raises, in every run, whatever the others do |
| `KeyringOutcomes.SoloCreatesInPieces` | scripts/ensure_credential_keys.py:290-296 | alone and without faults the keyring is created in writes of any size |
| `KeyringOutcomes.ParentChanged` | scripts/ensure_credential_keys.py:512-527 | when the directory has changed after the installation the keyring is taken back and the process raises |
| `KeyringOutcomes.LoserKeeps` | scripts/ensure_credential_keys.py:508-511 | a process that finds another's keyring where it was about to link its own removes its temporary file, validates that keyring and returns False |
| `KeyringOutcomes.ValidationIff` | scripts/ensure_credential_keys.py:222-287 | alone with an existing keyring, for every placement of failures: False exactly when every call succeeds and the payload is valid, an exception otherwise, the directory unchanged |
| `KeyringOutcomes.TouchedIsRefused` | scripts/ensure_credential_keys.py:252-263 | a file touched or replaced while it was read is refused even if its payload is valid |
| `KeyringOutcomes.MovedIsRefused` | scripts/ensure_credential_keys.py:235-283 | and so is one that was removed or replaced, at each of the three looks at the name |
| `KeyringOutcomes.ExistingIff` | scripts/ensure_credential_keys.py:490-536 | the same from the very start, opening the directory included |
| `KeyringOutcomes.InstalledIsValid` | scripts/ensure_credential_keys.py:451-460 | no run installs a keyring that validation would refuse |
| `WorkerProgress.WorkerProcessRow.constructor` | backend/app/worker_progress.py:292-302 | no row yet |
| `WorkerProgress.WorkerProcessRow.Register` | backend/app/worker_progress.py:292-302 | inserts the row |
| `WorkerProgress.WorkerProcessRow.Flush` | backend/app/worker_progress.py:304-318 | updates exactly the pending columns of an active row, or raises |
| `WorkerProgress.WorkerProcessRow.Stop` | backend/app/worker_progress.py:320-337 | stamps and stops an active row, or raises |
| `WorkerProgress.WorkerProgressRecorder.constructor` | backend/app/worker_progress.py:175-182 | a fresh recorder |
| `WorkerProgress.WorkerProgressRecorder.Note` | backend/app/worker_progress.py:184-192 | adds the event exactly while accepting |
| `WorkerProgress.WorkerProgressRecorder.CaptureForFlush` | backend/app/worker_progress.py:216-225 | takes all pending events, or none |
| `WorkerProgress.WorkerProgressRecorder.Restore` | backend/app/worker_progress.py:229-230 | puts the captured events back beside newer ones |
| `WorkerProgress.WorkerProgressRecorder.BeginStop` | backend/app/worker_progress.py:247-250 | closes the recorder, or refuses |
| `WorkerProgress.WorkerProgressRecorder.CaptureForStop` | backend/app/worker_progress.py:259-263 | takes what is left, or refuses |
| `WorkerProgress.WorkerProgressRecorder.MarkStopped` | backend/app/worker_progress.py:278-279 | records the stop |
| `WorkerProgress.WorkerProgressRecorder.FlushOnce` | backend/app/worker_progress.py:215-240 | recorder and row after one undisturbed flush, for each way its write can end |
| `WorkerProgress.WorkerProgressRecorder.StopOnce` | backend/app/worker_progress.py:242-280 | recorder and row after one undisturbed stop, for each way its write can end |
| `WorkerInterleavings.InvStep` | backend/app/worker_progress.py:184-280 | the invariant (one lock holder, clocks in order, stopping once, a valid row) survives every step of every interleaving, cancellations and abandoned threads included |
| `WorkerInterleavings.LossStep` | backend/app/worker_progress.py:184-280 | a kept note becomes lost if and only if the step is one of three: a cancellation after a failed write, the end without effect of an abandoned write, a commit with an older clock over the note's stamp; a lost one is covered again if and only if one of the stated steps happens |
| `WorkerInterleavings.LostExactlyWhen` | backend/app/worker_progress.py:215-280 | the same for every reachable state of every run |
| `WorkerGuarantees.NoLostProgress` | backend/app/worker_progress.py:184-280 | in every run without a cancellation each accepted note is pending, in flight, or stored at its time or later, failed and unacknowledged writes included |
| `WorkerGuarantees.LostNotesWereDropped` | backend/app/worker_progress.py:184-280 | in any run a lost note was lost by one of those three steps |
| `WorkerGuarantees.StopsOnce` | backend/app/worker_progress.py:242-280 | in every run at most one stop returns True, and then the row is stopped and nothing is pending or awaited |
| `WorkerGuarantees.StopStoresEverything` | backend/app/worker_progress.py:242-280 | without a cancellation a stop that returned True has every accepted note stored |
| `WorkerGuarantees.RowAlwaysValid` | backend/alembic/versions/20260828_0005_worker_progress_retention.py:37-56 | every reachable row satisfies the table's CHECK constraints under a non-decreasing clock |
| `WorkerGuarantees.NeverRefused` | backend/alembic/versions/20260828_0005_worker_progress_retention.py:37-56 | without a cancellation the constraints never refuse a write to an active row |
| `WorkerGuarantees.RowStepIff` | backend/app/worker_progress.py:304-337 | a step moves the row forward or leaves it alone if and only if it does not commit event times read before the row was last seen |
| `WorkerGuarantees.RowNeverRegresses` | backend/app/worker_progress.py:304-337 | without a cancellation last_seen and event times never decrease between any two points of a run |
| `WorkerGuarantees.StoppedForever` | backend/app/worker_progress.py:309-337 | in every run a stopped row never changes |
| `WorkerGuarantees.CancelDetaches` | backend/app/worker_progress.py:226-240 | a cancellation detaches the call from its thread, which runs on, frees the lock it held, and changes nothing else |
| `WorkerGuarantees.DetachedForever` | backend/app/worker_progress.py:194-280 | a detached call stays detached in every run |
| `WorkerGuarantees.RegisteredIff` | backend/app/worker_progress.py:194-200 | registered exactly by the end of an acknowledged start that is still awaited |
| `WorkerGuarantees.StoppingIff` | backend/app/worker_progress.py:242-280 | stopping exactly once a stop was let in, stopped exactly by the end of an acknowledged one |
| `WorkerGuarantees.AcceptedIff` | backend/app/worker_progress.py:184-192 | a note is accepted exactly between registration and the beginning of a stop |
| `WorkerGuarantees.FlushStores` | backend/app/worker_progress.py:215-240 | an undisturbed flush stores exactly the pending events at the current time |
| `WorkerGuarantees.FailedFlushKeeps` | backend/app/worker_progress.py:226-240 | an undisturbed flush that fails, or commits unacknowledged, returns False and keeps every event pending; only the second has written the row |
| `WorkerGuarantees.StopStores` | backend/app/worker_progress.py:242-280 | an undisturbed stop returns True, stores what was pending and stops recorder and row; without pending events it only stamps the stop |
| `WorkerGuarantees.IdleIsReachable` | backend/app/worker_progress.py:194-204 | starting once reaches the states the next two results are about |
| `WorkerGuarantees.CancelLoses` | backend/app/worker_progress.py:226-239 | cancelling a flush whose write then fails really loses its note: the handler catches Exception only |
| `WorkerGuarantees.OvertakenBackdates` | backend/app/worker_progress.py:304-318 | when an abandoned write commits after a later flush, last_seen goes back and the later, stored note is lost |
| `WorkerGuarantees.CancelBackdates` | backend/app/worker_progress.py:226-227 | and such a state is reached from every idle recorder |
| `Rounding.RoundNear` | backend/app/evaluators/numeric.py:116-120 | rounding to prec digits errs by at most one part in 2 * 10^(prec-1) |
| `Rounding.HalfEvenIff` | backend/app/evaluators/numeric.py:116-120 | rounding is to the nearest and from halfway to the even neighbour, and nothing else is |
| `Rounding.RoundMonotone` | backend/app/evaluators/numeric.py:116-120 | rounding keeps order, across different numbers of dropped digits |
| `Rounding.RoundScale` | backend/app/evaluators/numeric.py:116-120 | rounding depends on significant digits only, not on the exponent |
| `Rounding.RoundIdempotent` | backend/app/db/import_sqlite.py:178 | rounding a rounded value changes nothing |
| `DecimalTolerance.CorrectMeans` | backend/app/evaluators/numeric.py:105-120 | the score, exactly: the rounded sides compared in any common unit |
| `DecimalTolerance.PrecisionIs` | backend/app/evaluators/numeric.py:105-115 | the working precision is ten more than the digits of the longest coefficient, and at least sixty |
| `DecimalTolerance.WronglyAcceptedIff` | backend/app/evaluators/numeric.py:105-120 | the score is correct if and only if the answer is within the tolerance, or difference and tolerance round alike; it is wrongly correct exactly in the second case alone |
| `DecimalTolerance.ExactImpliesCorrect` | backend/app/evaluators/numeric.py:105-120 | an answer exactly within tolerance always scores correct |
| `DecimalTolerance.CorrectImpliesNearlyExact` | backend/app/evaluators/numeric.py:105-120 | a correct score is within tolerance up to the factor (1+u)/(1-u), u = 5 * 10^(-prec) |
| `DecimalTolerance.ZeroToleranceIsEquality` | backend/app/evaluators/numeric.py:105-120 | with zero tolerances the score is equality |
| `DecimalTolerance.ExactWhenDigitsFit` | backend/app/evaluators/numeric.py:106-115 | when the difference and the relative bound, each in its own digits, fit the working precision the score is exact in both directions |
| `DecimalTolerance.RoundingCanAccept` | backend/app/evaluators/numeric.py:116-120 | beyond it the score can accept too much: 1e<n> against -1 with absolute tolerance 1e<n>, for every n >= 60 |
| `DecimalTolerance.RoundedToleranceCanAccept` | backend/app/evaluators/numeric.py:106-120 | so can a difference that fits, when the relative tolerance rounds up onto it: a family for every n >= 50 |
| `Percentile.OrderInvariant` | scripts/phase2_slo.py:356 | the percentile does not depend on the order of observations |
| `Percentile.WithinRange` | scripts/phase2_slo.py:351-363 | it lies within any bounds of the sample |
| `Percentile.MonotoneInPercentage` | scripts/phase2_capacity.py:705-712 | it is monotone in the percentage, across interval boundaries |
| `Percentile.MonotoneInSamples` | scripts/phase2_capacity.py:705-712 | it is monotone in every observation |
| `Percentile.HitsOrderStatistic` | scripts/phase2_slo.py:359-363 | at a grid position it is the order statistic |
| `Percentile.LinearBetweenGrid` | scripts/phase2_slo.py:356-363 | between neighbouring grid positions it moves in a straight line from one order statistic to the next |
| `Percentile.RefusedIff` | scripts/phase2_slo.py:351-355 | it is refused exactly without observations or outside 0 to 100 |

## Left out

- The governance repository behind the attempt controller is not part of this model: the
  controller is its contract in `backend/app/provider_attempts.py` and the state CHECK of the
  reservation table. Only its counter arithmetic is used, against which the derived totals are
  compared; its locks, limits, fences and reconciliation are left out.
- JSON and UTF-8 decoding of provider events: an arbitrary function from payload bytes to a
  decoded event. Error texts, status codes and secret redaction are not modelled.
- SHA-256 and random names: the summary theorems are about the bytes before hashing, and
  temporary names and new inodes are assumed fresh.
- The keyring model has no writer outside the protocol, no signals between system calls, no
  symbolic links or special files, and a failing system call has no effect. The parent
  directory checks are steps that may fail; what they look at is not modelled.
- The wait of `stop` for the periodic flush task is not modelled, which allows more
  interleavings than the code; deletion of a worker row from outside is not modelled. A
  worker's transaction is two steps, reading the clock and committing.
- Attempts.BackoffDoubles: over exact reals. The retry loop records a delay as one step, also
  when the delay is zero and the code does not sleep.
- What can fail before the retry loop (a missing key, an invalid payload or mock
  configuration) is not modelled: no attempt has been reserved then.
- The importer's step contents between `begin` and COMMIT (locks, head checks, copying,
  matching summaries) are one step that succeeds or raises. SQL, drivers and DDL are not modelled.
- Ledger money is counted in units of 10^-8 without a bound; rounding of sums beyond 28
  digits is not modelled. Malformed ledger values that make conversions raise are not modelled.
- DecimalText.TextIff: exponents are assumed within the context's range, so overflow and
  subnormal rounding in `normalize` do not occur.
- Canonical.EncodeIff: which exception a rejected value raises is not modelled, only that one
  is raised; text with unpaired surrogates, which UTF-8 encoding refuses, is not representable.
- DecimalTolerance.CorrectMeans: parsing, the rejection of negative tolerances and exponent
  limits come before the comparison and are not modelled.
- Percentile.WithinRange: over exact reals. In floating point the difference of two samples can
  overflow, and infinity times a zero fraction is not a number, so for samples around 1e308
  this result and HitsOrderStatistic fail, not only by rounding.
- Percentile.MonotoneInPercentage: over exact reals, likewise.
- Percentile.MonotoneInSamples: over exact reals, likewise.
- Percentile.LinearBetweenGrid: over exact reals, likewise.
- Percentile.HitsOrderStatistic: over exact reals, likewise. The rejection of non-finite samples
  is not modelled.
- HTTP, configuration, logging, the frontend, the evaluation runner and the audit archive.
