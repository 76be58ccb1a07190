# Verified models of the serving stack

Dafny models of the parts of this repository whose correctness depends on more than one function at a time,
with proofs of the properties they are meant to have. `dafny verify dfyconfig.toml` checks everything.

| file | models |
|---|---|
| `KvMemory.dfy`, `SerialDecoding.dfy`, `SpeculativeSlot.dfy` | the speculative-decoding slot of `kernel-work/src-server-context.cpp` against one-token-at-a-time decoding |
| `ChunkReuse.dfy`, `DecodeRetry.dfy`, `StopWords.dfy` | prompt-cache reuse, the decode retry loop and stop-word streaming of the same file |
| `SseDecoder.dfy`, `EventStream.dfy` | the incremental event-stream decoder of `server/console_trace.py` against sections 9.2.5 and 9.2.6 of the WHATWG HTML Living Standard |
| `SlotQueue.dfy`, `Inference.dfy` | admission to the engine in `server/gateway.py`: the queue, and the inferences that acquire and release |
| `CredentialGuard.dfy` | the rotation guard of `voice/mobile_gateway.py` |
| `Gguf.dfy`, `Placement.dfy` | the GGUF reader and writer of the head tools, and their placement of tensors, after the "File Structure" section of the GGUF specification |
| `HeadConversion.dfy`, `HeadMeaning.dfy`, `HeadVerification.dfy` | `convert-frspec-head.py`: what it writes, what the merged projection computes, and when `verify-converted.py` accepts it |
| `VocabMap.dfy` | `make-t2d-head.py` and the counts of `d2t-inspect.py` |
| `OwnedProcess.dfy` | the process owner of `server/winjob.py` under arbitrary failures of the operating system |
| `CallerCreate.dfy` | the bounded CREATE request and its failure receipts in `voice/caller_binding.py` |
| `Helpers.dfy` | optional results, bytes, minimum and maximum |

**Speculative slot.** The target and its sampler are one deterministic function of the memory that a row sees
and of the tokens accepted before. A sequence's memory is a set of cells, so that a stale cell is not silently
overwritten, and, for recurrent or hybrid models, a running state: the tokens folded into it and the position
after the last of them. A context shift moves the cells and that position; what was folded stays folded. The three
answers of `common_context_can_seq_rm` (any tail, whole sequences only, at most n tokens) are all covered, with and
without context shifting, in any combination. For every drafter, acceptance pattern and mix of commits and replays
the emitted tokens are a prefix of the serial trajectory; near the context limit a speculative run may stop earlier,
because `process_token` sees the prompt already extended.

**Protocols.** The slot queue, the inferences that use it and the credential guard are transition systems whose
steps are the code between two awaits, taken in any order; the classes beside the queue and the guard perform the
same steps on fields, as the gateways do.

**Foreign calls** are arbitrary: in `OwnedProcess.dfy` any sequence of answers decides which calls succeed and the
ghost state of the kernel records what they did; in `CallerCreate.dfy` each step of the transport may raise or be
cancelled; in `DecodeRetry.dfy` the results of `llama_decode` are any sequence of 0, 1 and negative numbers.

## What is false of the code, and exactly when it holds

- `prompt.tokens` is the input plus all emitted tokens but the last while a slot generates. When a request ends, it is
  so if and only if no token before the last one that verification returned ended the request, by a reason of its own,
  the full context or the budget (`SpeculativeSlot.CommittedExactIff`, `SpeculativeSlot.Generate`): the accepted
  tokens are put into the prompt before the first of them is emitted. Otherwise the prompt holds more than was emitted
  (`SpeculativeSlot.EndsInsideAcceptedDraft` is such a request).
- A context shift makes room if and only if the request's `n_discard` is not negative: a negative value is
  clamped to 0 and the shift drops nothing (`SerialDecoding.ShiftMakesRoomIff`). The bound `prompt < n_ctx` in
  `SpeculativeSlot.Slot.Valid` is therefore stated for non-negative `n_discard` when shifting is on.
- Memory mirrors the prompt of a slot after an abandoned decode if and only if the view reached past the slot's last
  row, that is, if none of its own indices made `post_decode` throw (`KvMemory.AbandonedBatchMirrorsIff`): a
  verification batch split over two views makes it throw, and the slot is released with a prompt that is ahead of its
  memory.
- The windowed stop-word search finds what a full search finds if and only if the text before the last piece
  holds no earlier complete occurrence (`StopWords.WindowExactIff`). A piece that ends inside a multi-byte
  character is not searched, so a word completed by it can be missed (`StopWords.MissedStopWord`).
- Text held back at the end of a request is delivered if the end is an end-of-generation token. At any other end, such
  as a limit, everything is delivered if and only if the unsent text ends in no beginning of a stop word
  (`StopWords.TextStream.ProcessToken`): otherwise that text is never streamed
  (`StopWords.LimitDropsHeldText` is such a request).
- An event whose lines take exactly one byte more than the limit is not dropped by its lines but by its blank
  line, which then does not end it: the following event is swallowed too (`EventStream.Log` says so exactly).
- When the decode loop reports "context size exceeded" in a shared memory, no idle slot is left to purge if and only if
  the configured batch size is at least 2 or there was none when the view was first tried
  (`DecodeRetry.NothingLeftIff`). With a batch size of 1 a first refusal ends the loop whatever is idle
  (`DecodeRetry.GivesUpAtOnce`, `DecodeRetry.GivesUpWithAnIdleSlot`).
- The merged projection computes the sum of the two projections if and only if a row is a whole number of
  blocks (`HeadMeaning.MergedMeaning`, `HeadMeaning.SplitBlocksBreakMeaning`). The byte comparison of
  `verify-converted.py` does not notice: it accepts a converted file whose projection computes something else
  (`HeadVerification.VerifierMissesSharedBlocks`).
- `d2t-inspect.py` counts rows, not tokens: its `mapped` is right if and only if no two rows name the same token
  of the vocabulary (`VocabMap.CountsAgreeIff`).
- `resume` starts the child inside a held job if and only if the job's handle was still there before the call; after a
  close that got past the job and no further it is still accepted, and the child is then in a job already closed over
  it (`OwnedProcess.OwnedProcess.Resume`, `OwnedProcess.CloseThenResume`, `OwnedProcess.ResumeAfterHalfClose`).

## Model

| member | source | states |
|---|---|---|
| `KvMemory.AbsorbExtendsMirror` | kernel-work/src-server-context.cpp:519-556 | decoding a batch appended at the end of a mirrored prompt leaves memory and prompt equal, cell by cell, with the batch folded into the running state |
| `KvMemory.RowSeesItsPrefix` | kernel-work/src-server-context.cpp:545-551 | each row of such a batch sees exactly the sequence up to itself, none of the rows behind it |
| `KvMemory.TruncateKeepsPrefix` | kernel-work/src-server-context.cpp:4053-4060 | removing the tail of a mirrored sequence leaves exactly the prefix and unfolds as many tokens, if the running state can go back that far, shifted before or not |
| `KvMemory.ShiftMirror` | kernel-work/src-server-context.cpp:2993-3010 | seq_rm and seq_add with the in-place edit of the token list keep memory and tokens equal |
| `KvMemory.ShiftMemory` | kernel-work/src-server-context.cpp:2993-3010 | for every kind of memory the two calls of a shift give the mirror of the edited token list, with the running state's position moved and its tokens untouched |
| `KvMemory.AbandonedBatchMirrorsIff` | kernel-work/src-server-context.cpp:3846-3860 | after an abandoned batch, memory and prompt of a slot agree if and only if the view reached past its last row, that is, if none of its own indices made post_decode throw |
| `KvMemory.Decode` | kernel-work/src-server-context.cpp:2909-2932 | one decode: the new memory, and what each row sees |
| `KvMemory.SeqPosMax` | kernel-work/src-server-context.cpp:3059-3062 | the largest position in use, -1 if there is none |
| `SerialDecoding.ShiftMakesRoomIff` | kernel-work/src-server-context.cpp:2976-3013 | a shift of a full slot leaves room if and only if n_discard is not negative |
| `SerialDecoding.RoomShifts` | kernel-work/src-server-context.cpp:2976-3009 | a full slot keeps its whole input if n_keep is negative and n_keep tokens otherwise, one more for a beginning-of-sequence token, at most n_ctx - 4; then it drops n_discard tokens, or half of the rest if that is 0, never the last one, and keeps all that follow |
| `SerialDecoding.ShiftKeepsTheInput` | kernel-work/src-server-context.cpp:2976-2990 | of fifteen tokens with an input of eight, the eight are kept and the next three dropped |
| `SerialDecoding.RunCompose` | kernel-work/src-server-context.cpp:3908-3957 | serial runs compose |
| `SerialDecoding.BatchViews` | kernel-work/src-server-context.cpp:530-566 | the rows of a verification batch see the sampled token and the prefixes of the draft |
| `SerialDecoding.AcceptFrom` | docs/benchmarks/acceptance-metric-frozen-20260915.md:17-27 | verification returns at least one token and at most one more than the draft |
| `SerialDecoding.AcceptedFromDraft` | kernel-work/src-server-context.cpp:3975-3986 | all tokens returned but the last are the draft's, and verification stops only where the last differs from it |
| `SerialDecoding.AcceptedIsSerial` | kernel-work/src-server-context.cpp:3971-3986 | whatever the draft, verification returns the next tokens of serial decoding and its state |
| `SerialDecoding.SerialDraftAccepted` | kernel-work/src-server-context.cpp:3999-4018 | a draft that serial decoding would produce is accepted whole |
| `SpeculativeSlot.DropMiddle` | kernel-work/src-server-context.cpp:3001-3009 | the in-place copy drops exactly the middle of the token list |
| `SpeculativeSlot.ShiftInvisible` | kernel-work/src-server-context.cpp:2954-3014 | shifting one round early changes nothing that serial decoding does |
| `SpeculativeSlot.ExtendPrefix` | kernel-work/src-server-context.cpp:4062-4080 | emitting tokens that continue the serial state keeps the emitted text a serial prefix |
| `SpeculativeSlot.CommittedExactIff` | kernel-work/src-server-context.cpp:4050-4080 | after a commit the context holds the input and all emitted tokens but the last if and only if no token before the last of the accepted ones ends the request; otherwise more |
| `SpeculativeSlot.UseCheckpointIff` | kernel-work/src-server-context.cpp:3113-3120 | a checkpoint is taken exactly if the memory cannot be rolled back over the draft |
| `SpeculativeSlot.DraftMaxIsLargest` | kernel-work/src-server-context.cpp:497-516 | the draft is limited to the most tokens that, with the sampled one and one more, still fit the context and the budget |
| `SpeculativeSlot.ShiftMemoryOf` | kernel-work/src-server-context.cpp:2985-2994 | the memory side of a context shift gives the mirror of the shifted prompt, for every kind of memory |
| `SpeculativeSlot.Slot.constructor` | kernel-work/src-server-context.cpp:3880-3906 | a slot whose prompt has been evaluated: memory mirrors it, nothing is emitted |
| `SpeculativeSlot.Slot.SampleFirst` | kernel-work/src-server-context.cpp:3899-3957 | the first sampled token starts the slot in step with serial decoding |
| `SpeculativeSlot.Slot.ProcessToken` | kernel-work/src-server-context.cpp:1875-1943 | generation stops exactly if the token halts it, the context is full and cannot shift, or the budget is used up |
| `SpeculativeSlot.Slot.ContextShift` | kernel-work/src-server-context.cpp:2954-3014 | memory and prompt shift together, for every kind of memory, exactly when the prompt is full; what is kept and dropped is what the request asks for |
| `SpeculativeSlot.Slot.MakeRoom` | kernel-work/src-server-context.cpp:2954-3014 | before a batch the slot goes on from the shifted serial state; while a replay is pending nothing shifts, with shifting on too |
| `SpeculativeSlot.Slot.PrepareDraft` | kernel-work/src-server-context.cpp:3040-3138 | a pending draft is kept; a new one is counted and gets a checkpoint of exactly the current prefix when it may need one |
| `SpeculativeSlot.Slot.HandleLastSampledToken` | kernel-work/src-server-context.cpp:519-556 | the batch rows and the prompt both gain the sampled token and the draft, at consecutive positions |
| `SpeculativeSlot.Slot.SampleAndAccept` | kernel-work/src-server-context.cpp:3975-3986 | the acceptance loop computes the acceptance rule and advances the sampler by what it returns |
| `SpeculativeSlot.Slot.EmitAll` | kernel-work/src-server-context.cpp:4062-4080 | exactly the accepted tokens up to the first that ends the request are emitted, and the slot goes on exactly if the last emitted does not end it |
| `SpeculativeSlot.Slot.Restore` | kernel-work/src-server-context.cpp:3992-4020 | restoring returns prompt, memory and sampler to the state before the batch, with the accepted tokens as pending draft |
| `SpeculativeSlot.Slot.Commit` | kernel-work/src-server-context.cpp:4028-4060 | committing leaves memory equal to the prompt extended by the accepted tokens but the last |
| `SpeculativeSlot.Slot.Propose` | kernel-work/src-server-context.cpp:2954-3143 | context shift, draft and decode give a verifiable batch after the serial state, for a pending draft or the new one |
| `SpeculativeSlot.Slot.PlainContinues` | kernel-work/src-server-context.cpp:3908-3957 | a round without a draft samples the next serial token |
| `SpeculativeSlot.Slot.VerificationReturns` | kernel-work/src-server-context.cpp:3971-3986 | verification of a decoded batch returns serial tokens, and the whole draft of a replay |
| `SpeculativeSlot.Slot.FinishByRestore` | kernel-work/src-server-context.cpp:3992-4020 | a restored slot is in step with serial decoding, its pending draft is what serial decoding produces next, and it fits without a shift |
| `SpeculativeSlot.Slot.CommitInStep` | kernel-work/src-server-context.cpp:4028-4085 | after a commit the slot is in step with serial decoding |
| `SpeculativeSlot.Slot.FinishByCommit` | kernel-work/src-server-context.cpp:4028-4085 | committing and emitting keeps the slot valid, ended or not, and says exactly what was put into the context and what was emitted |
| `SpeculativeSlot.Slot.FinishDraft` | kernel-work/src-server-context.cpp:3960-4085 | restore exactly if the memory cannot be rolled back as far as needed, commit otherwise; either keeps the slot valid |
| `SpeculativeSlot.Slot.Round` | kernel-work/src-server-context.cpp:2954-4085 | a round keeps the slot in step and mirrored, for every kind of memory; it restores only the current prefix and leaves a replay that needs no shift; a replayed draft is accepted whole; it emits up to the first token that ends the request, and the prompt is exact if and only if that is the last accepted one; the draft counters grow by exactly the new draft and by exactly what was accepted of it |
| `SpeculativeSlot.Generate` | kernel-work/src-server-context.cpp:2954-4085 | every run emits a prefix of the serial trajectory, memory mirrors the prompt, the slot stops only at a token that ends the request; the prompt is the input plus all emitted tokens but the last while it generates, and at the end if and only if no earlier token of the last accepted batch ended it |
| `SpeculativeSlot.EndsInsideAcceptedDraft` | kernel-work/src-server-context.cpp:4050-4080 | a request that ends on the first token of an accepted draft leaves two tokens more in the prompt than it emitted |
| `SpeculativeSlot.ReplayWhileShiftingIsOn` | kernel-work/src-server-context.cpp:3992-4020 | a slot with shifting on and a memory that cannot be rolled back reaches a pending replay |
| `ChunkReuse.MatchLenIsLongest` | kernel-work/src-server-context.cpp:3296-3301 | the counted match is the longest common run |
| `ChunkReuse.ChunksAreSound` | kernel-work/src-server-context.cpp:3293-3324 | the reused chunks follow each other without gap in the new prompt and without overlap in the cache, each long enough and equal to what it replaces |
| `ChunkReuse.ChunksMissNothing` | kernel-work/src-server-context.cpp:3293-3324 | the scan misses nothing: no cached position that it passes over starts a long enough run that matches where the new prompt then stands, and no chunk could be longer |
| `ChunkReuse.ChunksUnique` | kernel-work/src-server-context.cpp:3293-3324 | there is only one list of chunks that is sound and misses nothing |
| `ChunkReuse.ShiftChunk` | kernel-work/src-server-context.cpp:3309-3312 | moving one chunk keeps the memory equal to the new prompt in front and to the cache behind |
| `ChunkReuse.CopyDown` | kernel-work/src-server-context.cpp:3314-3317 | the overlapping in-place copy moves the chunk and spoils nothing still needed |
| `ChunkReuse.CountMatch` | kernel-work/src-server-context.cpp:3296-3301 | the loop counts the longest match, on a list whose front was already overwritten |
| `ChunkReuse.ScanStep` | kernel-work/src-server-context.cpp:3293-3324 | one iteration of the scan, on tokens and memory together |
| `ChunkReuse.NextScanGains` | kernel-work/src-server-context.cpp:3303-3323 | every iteration moves on in the cache and accounts exactly for what it reuses |
| `ChunkReuse.ShiftChunks` | kernel-work/src-server-context.cpp:3283-3327 | the scan ends with n_past equal to the common prefix plus the reused chunks, tokens and memory matching |
| `ChunkReuse.LeaveOneToken` | kernel-work/src-server-context.cpp:3333-3449 | a full match is shortened by one token, everything else is kept |
| `ChunkReuse.ReusePrompt` | kernel-work/src-server-context.cpp:3259-3486 | n_past is the longest common prefix plus, if chunks are reused, the total of the chunks after it, none missed, less one if that is the whole prompt; without cache_prompt it is 0; token list and memory both end as exactly the first n_past tokens of the new prompt |
| `ChunkReuse.EvaluatingTheRestMirrors` | kernel-work/src-server-context.cpp:3566-3589 | evaluating the rest gives the memory of the whole new prompt |
| `DecodeRetry.TryClearIdleSlots` | kernel-work/src-server-context.cpp:1709-1734 | in a shared memory exactly the first idle slot that holds tokens is emptied, if there is one; nothing else changes |
| `DecodeRetry.PurgeableCounts` | kernel-work/src-server-context.cpp:1716-1731 | the purgeable slots are counted: those that are idle and hold tokens |
| `DecodeRetry.Retry` | kernel-work/src-server-context.cpp:3780-3787 | a refused view is retried with one idle slot less or, if none is left to purge, with half the batch size; only idle slots are touched |
| `DecodeRetry.TilesPartition` | kernel-work/src-server-context.cpp:2912-2932 | successive views cover every index of the batch exactly once, in order |
| `DecodeRetry.ReleaseAll` | kernel-work/src-server-context.cpp:3764-3773 | after an error no slot is processing, failed ones keep no cached prompt, and all others keep theirs |
| `DecodeRetry.DecodeBatch` | kernel-work/src-server-context.cpp:2909-2948 | the retry loop terminates for every sequence of results; the views tile the batch from 0, all of it on normal exit; each is decoded by a call of its own after refusals only, and is as large as these left the batch size; the loop breaks off only in a call that was refused for a single token or failed, or after a post_decode that failed, and leaves exactly the slots that this implies |
| `DecodeRetry.NothingLeftIff` | kernel-work/src-server-context.cpp:3744-3783 | giving up for lack of room means nothing was left to purge if and only if the configured batch size left something to halve or there was nothing to purge in the first place |
| `DecodeRetry.SamePurged` | kernel-work/src-server-context.cpp:1716-1731 | slots of which as many can be purged as before are unchanged |
| `DecodeRetry.GivesUpAtOnce` | kernel-work/src-server-context.cpp:3744-3777 | for every batch and all slots, a batch size of 1 and a first refusal end the loop with no slot purged |
| `DecodeRetry.GivesUpWithAnIdleSlot` | kernel-work/src-server-context.cpp:3744-3783 | one idle slot with cached tokens, left as it is while the batch is given up |
| `StopWords.FindFirst` | kernel-work/src-server-context.cpp:593-593 | the search finds the first occurrence from its start, or proves there is none |
| `StopWords.FindPartialSuffix` | kernel-work/src-server-context.cpp:594-597 | the partial search finds a suffix that begins the word, or proves there is none |
| `StopWords.FindPartialLongest` | kernel-work/src-server-context.cpp:594-597 | and it is the longest suffix that does |
| `StopWords.FindStoppingStrings` | kernel-work/src-server-context.cpp:581-610 | the smallest position over all words, and a word that has it |
| `StopWords.WindowExactIff` | kernel-work/src-server-context.cpp:589-593 | the windowed search equals the full search if and only if no earlier complete occurrence precedes the last piece |
| `StopWords.MissedStopWord` | kernel-work/src-server-context.cpp:1886-1896 | an input for which the windowed search misses a stop word |
| `StopWords.SearchIsExact` | kernel-work/src-server-context.cpp:1889-1896 | while pieces end complete, searching the unsent text finds the first occurrence in the whole text |
| `StopWords.SettledExcludes` | kernel-work/src-server-context.cpp:1902-1912 | no stop word ever starts inside text already streamed |
| `StopWords.SettleMore` | kernel-work/src-server-context.cpp:1902-1912 | text sent because it ends in no beginning of a stop word stays settled |
| `StopWords.CutIsEarliest` | kernel-work/src-server-context.cpp:1893-1900 | while pieces end complete, the text is cut at the earliest stop word of the whole text, and not at all if there is none |
| `StopWords.HeldBackIff` | kernel-work/src-server-context.cpp:1902-1905 | the partial search finds something exactly if the text ends in the beginning of a stop word |
| `StopWords.Scan` | kernel-work/src-server-context.cpp:1893-1905 | where to cut, and whether to hold back: exactly at the earliest stop word, and otherwise exactly when the unsent text ends in the beginning of one and generation goes on |
| `StopWords.TextStream.ProcessToken` | kernel-work/src-server-context.cpp:1875-1943 | streamed pieces add up to the sent prefix of the model's text; the request stops by a word exactly when one occurs, at its earliest position; held-back text ends in the beginning of a stop word; an end-of-generation token delivers everything, any other end delivers everything exactly if nothing is held back; nothing else stops the stream |
| `StopWords.LimitDropsHeldText` | kernel-work/src-server-context.cpp:1902-1943 | a request ended by a limit whose only piece is never sent |
| `SseDecoder.FieldOf` | server/console_trace.py:321-323 | for every name without a colon: a field is its name, a colon, at most one space, and its value; a line without a colon is a name with an empty value |
| `SseDecoder.MarkIsStripped` | server/console_trace.py:308-311 | one byte order mark in front is taken away, nothing else |
| `SseDecoder.JoinOf` | server/console_trace.py:334-334 | the values of several data fields are joined by line feeds |
| `SseDecoder.StrippedIsDone` | server/console_trace.py:335-335 | data is the end marker exactly if it is [DONE] with nothing but white space around it |
| `SseDecoder.DispatchIs` | server/console_trace.py:331-341 | an event without data emits nothing, the end marker ends the stream, any other event is one message with its name and joined data |
| `SseDecoder.FeedConcat` | server/console_trace.py:278-305 | chunk independence: feeding parts is feeding the whole, wherever the cut |
| `SseDecoder.FeedSegment` | server/console_trace.py:287-298 | a segment taken at once equals its bytes one by one, also across the limit |
| `SseDecoder.FeedLine` | server/console_trace.py:284-300 | one iteration of the loop equals its bytes |
| `SseDecoder.AfterReturn` | server/console_trace.py:301-305 | a line feed after a carriage return belongs to it, in this chunk or the next |
| `SseDecoder.Decoder.Take` | server/console_trace.py:287-296 | the limit check and the copy of a segment, as one state change |
| `SseDecoder.Decoder.CompleteLine` | server/console_trace.py:307-329 | a complete line, without its byte order mark if it is the first, ends the event if it is blank and otherwise adds its field to the event |
| `SseDecoder.Decoder.FeedLineOf` | server/console_trace.py:283-305 | one iteration of feed equals its bytes and always advances |
| `SseDecoder.Decoder.Feed` | server/console_trace.py:278-305 | feed leaves the state that its bytes lead to, one by one |
| `EventStream.DecoderSeesLines` | server/console_trace.py:278-305 | for every stream the decoder sees exactly its lines by LF, CRLF and CR, and its unterminated tail |
| `EventStream.LinesOf` | server/console_trace.py:282-305 | a line ends at a line feed, at a carriage return, or at both in this order; what follows the last end is the tail |
| `EventStream.FoldAcc` | server/console_trace.py:307-329 | what the decoder keeps between lines is a fold over the lines |
| `EventStream.FoldIsLog` | server/console_trace.py:278-341 | that fold emits the bounded meaning of the stream |
| `EventStream.LimitDoesNotMatter` | server/console_trace.py:288-292 | within the limit the bounded meaning is the standard's |
| `EventStream.DecoderRefinesStream` | server/console_trace.py:265-341 | for every byte stream the log is the bounded meaning: events by blank lines, data joined by LF, one notice for each oversized event |
| `EventStream.DecoderRefinesUnboundedStream` | server/console_trace.py:265-341 | for every stream within the limit the log is one dispatch per terminated event, none for an unterminated tail |
| `EventStream.MessagesRoundTrip` | server/console_trace.py:265-341 | whatever events are written, each as an event line, data lines and a blank line within the limit and without line ends in a field, the log is exactly their messages: the name of each and its values joined by line feeds |
| `EventStream.BuffersBounded` | server/console_trace.py:287-295 | buffered data and current line never exceed the limit, for every stream in any chunks |
| `EventStream.DecodeChunks` | server/console_trace.py:278-347 | decoding any chunks ends in the state and log of the whole stream; finish reports exactly a remaining line or data |
| `SlotQueue.HandOffRestores` | server/gateway.py:530-537 | handing off leaves exact counters, arrival order, and nobody waiting beside a free slot |
| `SlotQueue.ReleaseRestores` | server/gateway.py:530-537 | giving back any owned slot restores the invariant |
| `SlotQueue.ArriveKeeps` | server/gateway.py:501-510 | a fresh call takes a slot only if none is queued |
| `SlotQueue.WithoutKeepsOrder` | server/gateway.py:519-522 | leaving the queue keeps the order of the others |
| `SlotQueue.WithoutRemovesOne` | server/gateway.py:519-522 | leaving the queue removes exactly the caller |
| `SlotQueue.ExpireKeeps` | server/gateway.py:515-524 | timeout and cancellation are exact, also when a grant raced with them |
| `SlotQueue.DrainKeeps` | server/gateway.py:493-499 | draining refuses every pending call and keeps the owners |
| `SlotQueue.StepKeeps` | server/gateway.py:489-537 | conservation, bounds, FIFO order and work conservation survive every step |
| `SlotQueue.ArrivalIff` | server/gateway.py:501-510 | an arriving call is refused at once exactly if the gateway is draining, or the call cannot take a slot and the queue is full; it takes a slot at once exactly if one is free; else it is the last in the queue |
| `SlotQueue.ReleasePassesOn` | server/gateway.py:530-537 | a slot given back goes to the oldest waiter, if there is one and the gateway is not draining, and is free otherwise; nothing else changes |
| `SlotQueue.ResumeIs` | server/gateway.py:511-528 | a grant makes its call a holder, or is given back while draining; a refusal ends the call |
| `SlotQueue.ExpireIs` | server/gateway.py:515-524 | a call that gives up passes on a slot granted meanwhile, or leaves its place in the queue; nothing else changes |
| `SlotQueue.FinishIs` | server/gateway.py:876-877 | an inference that ends passes its slot on |
| `SlotQueue.DrainIs` | server/gateway.py:493-499 | draining refuses exactly the pending calls and empties the queue; ending it changes nothing else |
| `SlotQueue.RunKeeps` | server/gateway.py:489-537 | and hold in every state of every run |
| `SlotQueue.StepAdmits` | server/gateway.py:504-528 | admissions are never reordered, and while draining nobody becomes a holder |
| `SlotQueue.RunAdmits` | server/gateway.py:501-537 | over whole runs, admissions are never taken back or reordered |
| `SlotQueue.RunDrains` | server/gateway.py:493-528 | over whole runs, nobody becomes a holder from the moment draining is set until it is reset |
| `SlotQueue.QueueTheorem` | server/gateway.py:489-537 | in every run: active equals holders plus unresumed grants and stays in range, a queue implies full concurrency, slots go out in arrival order, and all is free once every call is over |
| `SlotQueue.Gateway.ReleaseSlot` | server/gateway.py:530-537 | the loop on the object is the hand-off step |
| `SlotQueue.Gateway.SetDraining` | server/gateway.py:493-499 | the setter on the object is the drain step |
| `SlotQueue.Gateway.AcquireBegin` | server/gateway.py:501-510 | acquire_slot up to its await: it returns at once exactly if it is refused or gets a slot, in terms of the fields as it finds them; otherwise the call is appended to the queue |
| `SlotQueue.Gateway.AcquireResume` | server/gateway.py:511-528 | acquire_slot after its await; true exactly for a grant seen while not draining, and a grant that is not used is passed on |
| `SlotQueue.Gateway.FinishInference` | server/gateway.py:876-877 | releasing the slot that an inference holds passes it to the oldest waiter, or frees it |
| `Inference.QueueLedger` | server/gateway.py:501-537 | every step of the queue keeps active equal to admissions less releases, releases each admission at most once, and touches no other call but by granting or refusing it |
| `Inference.BodyReadIs` | server/gateway.py:758-815 | the call made after the body is refused, takes a slot or waits, in terms of the queue as it finds it, and the flag acquired says which |
| `Inference.ReturnIs` | server/gateway.py:511-528 | acquire_slot comes back with the slot only for a grant seen while not draining; a grant that is not used is passed on, once |
| `Inference.LeavingIs` | server/gateway.py:876-877 | an inference that ends gives back the slot that it holds, if it holds one, and nothing else |
| `Inference.LeaveKeeps` | server/gateway.py:876-877 | the finally block releases exactly what this inference holds |
| `Inference.ReturnKeeps` | server/gateway.py:511-528 | acquire_slot comes back with the slot, or without it and without owing one, also when a grant raced with timeout, cancellation or draining |
| `Inference.NextKeeps` | server/gateway.py:754-877 | every step of every inference, at either acquire point and out of every await, keeps the flag acquired true of the queue |
| `Inference.InferenceTheorem` | server/gateway.py:758-877 | in every run, whatever failed or was cancelled where: an inference that has ended owns no slot and gave back exactly what it was given, nothing is released twice, and all is free once all have ended |
| `CredentialGuard.MoveKeeps` | voice/mobile_gateway.py:263-294 | any move of one request that respects counters, token, locks and wake-ups keeps the invariant |
| `CredentialGuard.OnlyOneRotates` | voice/mobile_gateway.py:275-285 | a rotation excludes every POST and every other rotation |
| `CredentialGuard.MayEnterIff` | voice/mobile_gateway.py:275-284 | a POST may enter exactly if no rotation is under way or announced, however many POSTs are inside; a rotation exactly if nobody is inside |
| `CredentialGuard.AttemptIs` | voice/mobile_gateway.py:274-285 | a request at the gate, first or woken up, enters with the current token exactly if the gate is open to its mode, and otherwise sleeps; a rotation that enters wakes the others |
| `CredentialGuard.EndIs` | voice/mobile_gateway.py:279-294 | a request that ends, or a rotation that is cancelled, wakes everybody and frees its lock; a token in the reply is current from then on |
| `CredentialGuard.CancelKeeps` | voice/mobile_gateway.py:277-282 | a cancelled wait leaves exact counters and wakes whoever may now enter |
| `CredentialGuard.LeaveKeeps` | voice/mobile_gateway.py:286-294 | releasing the guard, with or without a new token, keeps the invariant |
| `CredentialGuard.StepKeeps` | voice/mobile_gateway.py:263-314 | counters, exclusion, current tokens, locks and no lost wake-up survive every step |
| `CredentialGuard.RunKeeps` | voice/mobile_gateway.py:263-405 | and hold in every state of every run |
| `CredentialGuard.RotationHasPriority` | voice/mobile_gateway.py:276-284 | no POST enters while a rotation is announced |
| `CredentialGuard.NoPostBetween` | voice/mobile_gateway.py:276-284 | between a rotation's request and its grant or cancellation the POSTs inside only become fewer |
| `CredentialGuard.DeadlockFree` | voice/mobile_gateway.py:296-367 | the nesting of the two locks and the guard cannot deadlock |
| `CredentialGuard.GuardTheorem` | voice/mobile_gateway.py:263-405 | in every run: exact counters, exclusion, the token a POST sent stays current until its reply, and some request can always move |
| `CredentialGuard.Gateway.Begin` | voice/mobile_gateway.py:358-367 | a request arrives, under a lock or not |
| `CredentialGuard.Gateway.TakeLock` | voice/mobile_gateway.py:299-302 | taking the lock and entering the guard is one step of the system |
| `CredentialGuard.Gateway.Resume` | voice/mobile_gateway.py:274-285 | a woken or cancelled wait is one step of the system |
| `CredentialGuard.Gateway.Finish` | voice/mobile_gateway.py:286-294 | the end of a guarded request is one step of the system |
| `Gguf.UnpackPack` | kernel-work/convert-frspec-head.py:42-44 | integers of every width round trip |
| `Gguf.PackIsLittleEndian` | kernel-work/convert-frspec-head.py:84-86 | byte i of a packed integer is its digit of weight 256 to the i |
| `Gguf.UnpackIsLittleEndian` | kernel-work/d2t-inspect.py:56-58 | a byte behind others weighs 256 for each of them |
| `Gguf.ScalarIs` | kernel-work/d2t-inspect.py:15-16 | the scalar types by number: their widths, and which are unsigned, signed, floating-point or boolean; a signed number is the one of its range congruent to its bits |
| `Gguf.StringLayout` | kernel-work/convert-frspec-head.py:37-39 | a string is eight bytes of length and its bytes, as many as there are if the file ends before |
| `Gguf.ArrayLayout` | kernel-work/convert-frspec-head.py:50-54 | an array is four bytes of element type, eight of length, and its items |
| `Gguf.EntryLayout` | kernel-work/d2t-inspect.py:59-61 | a metadata entry is its key, four bytes of type, and its value |
| `Gguf.TensorLayout` | kernel-work/d2t-inspect.py:62-69 | a tensor is its name, four bytes of rank, eight for each dimension, four of type and eight of offset |
| `Gguf.HeaderLayout` | kernel-work/d2t-inspect.py:53-69 | a file is GGUF, the version at 4, the number of tensors at 8 and of metadata entries at 16, the entries from 24 on, then the tensors |
| `Gguf.ReadOfWrite` | kernel-work/convert-frspec-head.py:37-69 | every storable value, however nested, reads back as written and nothing more is consumed |
| `Gguf.ReadHeaderOfWrite` | kernel-work/convert-frspec-head.py:151-160 | metadata list and tensor table read back as written, and exactly the header is consumed |
| `Gguf.ReadHeaderFits` | kernel-work/d2t-inspect.py:53-69 | every header that can be read, from any bytes, can be written |
| `Gguf.RoundUpIsPadded` | kernel-work/d2t-inspect.py:70-77 | the reader's rounded data start is the writer's padded header length, for every alignment |
| `Gguf.FileRoundTrip` | kernel-work/convert-frspec-head.py:151-166 | header and data survive a round trip through the file |
| `Gguf.BuildHeader` | kernel-work/convert-frspec-head.py:151-162 | the loops rebuild exactly the header, padded |
| `Gguf.ReadAll` | kernel-work/d2t-inspect.py:59-69 | the reading loops collect exactly the list, or fail where it fails |
| `Gguf.FindAlignment` | kernel-work/d2t-inspect.py:73-76 | the last general.alignment entry counts, converted as the scripts do from an integer, a boolean, a float or a string; an entry that cannot be converted is an error wherever it stands |
| `Gguf.LastAlignment` | kernel-work/d2t-inspect.py:73-76 | without a general.alignment entry the alignment is 32, otherwise the last one says what it is |
| `Gguf.IntOfIs` | kernel-work/d2t-inspect.py:76-76 | integers and booleans are taken as they are, decimal strings with or without a sign are read, an array is refused |
| `Gguf.IntOfWholeFloat` | kernel-work/d2t-inspect.py:76-76 | a whole number is read back from its floating-point form |
| `Gguf.ReadGguf` | kernel-work/d2t-inspect.py:53-80 | read_gguf computes the file's header and data, laid out as the rows above say |
| `Placement.BlockTable` | kernel-work/gguf_inventory.py:16-50 | bytes and elements per block of every type number, and which are unknown |
| `Placement.ProductOf` | kernel-work/convert-frspec-head.py:74-76 | the number of elements is the product of the dimensions |
| `Placement.BlockBytesTight` | kernel-work/convert-frspec-head.py:77-77 | as many whole blocks as the elements need, and not one more |
| `Placement.CountBytes` | kernel-work/convert-frspec-head.py:72-77 | tbytes, or a failure for an unknown type |
| `Placement.SliceWholeIff` | kernel-work/convert-frspec-head.py:130-130 | a slice is what the data has of it, byte by byte, and whole exactly if it lies within the data |
| `Placement.PlacementSound` | kernel-work/convert-frspec-head.py:118-124 | every blob's bytes are found at an aligned offset, as early as the alignment allows, with zeros between |
| `Placement.ExtentsDisjoint` | kernel-work/convert-frspec-head.py:118-124 | extents lie in the order of the blobs and never overlap |
| `Placement.PlacementUnique` | kernel-work/convert-frspec-head.py:118-124 | there is only one such layout: table and data are determined |
| `Placement.Allocator.Place` | kernel-work/convert-frspec-head.py:118-124 | place appends one blob to that layout |
| `HeadConversion.MergeRows` | kernel-work/convert-frspec-head.py:144-147 | the loop merges the rows alternately |
| `HeadConversion.RenamedIs` | kernel-work/convert-frspec-head.py:24-28 | the three renamings; every other name stays, and what comes out is never an old name |
| `HeadConversion.LookupIsLast` | kernel-work/convert-frspec-head.py:111-113 | of several tensors of one name the last is found |
| `HeadConversion.CarriedIs` | kernel-work/convert-frspec-head.py:126-129 | all tensors but the two projections are carried, in order |
| `HeadConversion.OutputIs` | kernel-work/convert-frspec-head.py:126-148 | the output is the carried tensors with their shapes, types and bytes, and then eh_proj, with rows twice as long |
| `HeadConversion.OldNamesGone` | kernel-work/convert-frspec-head.py:24-32 | no tensor of the output has one of the three old names or the name of an old projection |
| `HeadConversion.CarryAll` | kernel-work/convert-frspec-head.py:126-131 | every tensor but the two projections is carried, renamed, in order; it fails exactly on an unknown carried type |
| `HeadConversion.Convert` | kernel-work/convert-frspec-head.py:80-166 | the script from file bytes to file bytes, with its failures |
| `HeadConversion.ConvertedReadsBack` | kernel-work/convert-frspec-head.py:151-166 | reading the new file gives the old metadata and the placed tensors |
| `HeadConversion.ConvertsIff` | kernel-work/convert-frspec-head.py:111-162 | a readable file is converted exactly if both projections are there, carried types are known, the two shapes are Q8_0 and equal with rows, and the doubled row length and the last offset fit their fields |
| `HeadConversion.CarriedTensorFits` | kernel-work/convert-frspec-head.py:156-160 | no carried tensor overflows a field unless the last offset does |
| `HeadMeaning.MergeRow` | kernel-work/convert-frspec-head.py:144-147 | row r of the merge is row r of the one projection and then of the other |
| `HeadMeaning.MergedRows` | kernel-work/convert-frspec-head.py:133-148 | with whole blocks to the row, the weights of a merged row are those of the two rows, for every dequantiser |
| `HeadMeaning.MergedMeaning` | kernel-work/convert-frspec-head.py:8-13 | the merged matrix on concat(e, h) is fc_embd on e plus fc_hidden on h, for every dequantiser, input and row, when K is a multiple of the block length |
| `HeadMeaning.SplitBlocksBreakMeaning` | kernel-work/convert-frspec-head.py:140-147 | for every other K the merge of an all-zero and an all-one matrix gives a wrong output for some dequantiser and input |
| `HeadVerification.AcceptsCarriedIff` | kernel-work/verify-converted.py:45-65 | with distinct names, the verifier accepts every carried tensor exactly if every carried extent lies in the source data |
| `HeadVerification.AcceptsProjectionIff` | kernel-work/verify-converted.py:67-80 | it accepts the merge of two whole matrices exactly if the rows as cut fit the declared shape |
| `HeadVerification.ConvertedVerifies` | kernel-work/verify-converted.py:29-81 | what the converter writes for a sound source with whole blocks passes verification |
| `HeadVerification.ConvertedMeans` | kernel-work/verify-converted.py:67-80 | and the projection read out of the new file computes the sum of the two old ones |
| `HeadVerification.VerifierMissesSharedBlocks` | kernel-work/verify-converted.py:45-80 | a source that is converted and accepted in every tensor, although the new projection computes something else than the two old ones |
| `VocabMap.Invert` | kernel-work/make-t2d-head.py:43-47 | the in-place loop builds the last row of every token, the sentinel where there is none |
| `VocabMap.LastRowSound` | kernel-work/make-t2d-head.py:43-47 | for any d2t, a mapped v satisfies d2t[t2d[v]] = v, for the last such row, and the sentinel means no row |
| `VocabMap.GatherIsScatter` | kernel-work/make-t2d-head.py:4-12 | for any d2t, gathering the extended logits through t2d is scattering them through d2t |
| `VocabMap.EveryRowKeptIff` | kernel-work/d2t-inspect.py:110-116 | every row keeps its own place exactly if no two rows share a token |
| `VocabMap.InjectiveScatter` | kernel-work/d2t-inspect.py:4-8 | for an injective map the vector is the logits at their tokens and minus infinity elsewhere, whatever the order of writing |
| `VocabMap.CountRows` | kernel-work/d2t-inspect.py:112-116 | the inspector's mapped counts rows in range |
| `VocabMap.CountMapped` | kernel-work/make-t2d-head.py:48-49 | the converter's mapped counts distinct tokens |
| `VocabMap.CountsAgreeIff` | kernel-work/d2t-inspect.py:110-117 | the two counts agree exactly if no two rows share a token; otherwise the inspector reports too many |
| `VocabMap.EntriesAreSigned` | kernel-work/make-t2d-head.py:41-41 | an entry of the map is read from its own bytes, as the signed number congruent to them |
| `VocabMap.ForwardMapIs` | kernel-work/make-t2d-head.py:38-51 | there is a forward map exactly if the first d2t is an I64 list of at least one entry within the data whose first entry can index the new table; it holds the entries in order |
| `VocabMap.MakeT2d` | kernel-work/make-t2d-head.py:33-84 | the script from file bytes to file bytes, with its failures |
| `VocabMap.RewrittenTensor` | kernel-work/make-t2d-head.py:59-70 | in the new file d2t is the inverse map as I32, every other tensor keeps description and bytes |
| `VocabMap.RewrittenGathers` | kernel-work/make-t2d-head.py:33-84 | gathering through the d2t of the new file is scattering through the d2t of the old one |
| `OwnedProcess.OwnedProcess.SetUp` | server/winjob.py:278-308 | setup ends ready exactly if all its calls succeed, with all handles and the child in a kill-on-close job; with a single failure it is cleaned up and the child gone; otherwise retained for a retry; the child never ran |
| `OwnedProcess.OwnedProcess.AbortSetup` | server/winjob.py:310-334 | undoing terminates the child by its own handle and finishes, or keeps every handle it could not close; it finishes if no call fails |
| `OwnedProcess.OwnedProcess.Resume` | server/winjob.py:336-346 | the child is started only after a complete setup, in a kill-on-close job, which is held if and only if its handle was still there before; any other suspend count closes the owner, or keeps it if closing fails |
| `OwnedProcess.OwnedProcess.Wait` | server/winjob.py:410-419 | true only for a child that is gone, false exactly for one not seen to exit in time, raised for nothing but a wait that failed; refused exactly when closed |
| `OwnedProcess.OwnedProcess.ExitCode` | server/winjob.py:421-429 | the child's code is recorded only after the exit was seen, and closing keeps it |
| `OwnedProcess.OwnedProcess.Close` | server/winjob.py:431-453 | closed means gone and nothing kept; otherwise every unclosed handle is kept; no handle is closed twice; a close without failures finishes from every earlier failure, and has the exit code; a child possibly outside the job is terminated first |
| `OwnedProcess.Life` | server/winjob.py:273-453 | any sequence of calls with any failures keeps all of this |
| `OwnedProcess.CloseThenResume` | server/winjob.py:336-346 | after a close that got past the job and no further, resume starts the child in a job already closed over it |
| `OwnedProcess.ResumeAfterHalfClose` | server/winjob.py:336-453 | an owner that gets there from its setup |
| `CallerCreate.CreateRequestIds` | voice/caller_binding.py:39-48 | either no identifiers, or three distinct well-formed ones |
| `CallerCreate.RequestIdsIff` | voice/caller_binding.py:39-48 | identifiers are found exactly in the one request that carries them |
| `CallerCreate.IdIs` | voice/caller_binding.py:25-25 | an identifier is 32 lower-case hexadecimal digits |
| `CallerCreate.CreateFailure` | voice/caller_binding.py:100-116 | the factory's receipt always passes its validator, gives the reason that the status implies, and says not created exactly for an identified request that was not sent or whose refusal was proved, received and closed |
| `CallerCreate.DenialIff` | voice/caller_binding.py:119-134 | a denial is accepted exactly if it is the one envelope for this request |
| `CallerCreate.CreatedIff` | voice/caller_binding.py:247-271 | a success is accepted exactly in its one envelope, with a valid tuple |
| `CallerCreate.CreatedTupleIff` | voice/caller_binding.py:253-271 | the tuple is valid exactly in one form, up to its three identifiers and the optional session name |
| `CallerCreate.Pairs` | voice/caller_binding.py:339-344 | an object is refused exactly if a key is repeated, and otherwise holds exactly its pairs |
| `CallerCreate.ReadBody` | voice/caller_binding.py:308-314 | the body is read whole, or refused with the chunk that exceeds the limit |
| `CallerCreate.ReadResponse` | voice/caller_binding.py:298-320 | a response passes exactly if it is of a kind not read, or delivered whole and decoded; proof exactly for the exact denial; the fault and stage reported are those of the first thing that went wrong |
| `CallerCreate.EndingIs` | voice/caller_binding.py:288-321 | which of several faults ends the exchange, and what it takes for a response to be delivered |
| `CallerCreate.Exchange` | voice/caller_binding.py:288-321 | the exchange ends with the fault, at the stage and in the dispatch state that the first thing that went wrong implies, a fault while closing taking its place |
| `CallerCreate.Create` | voice/caller_binding.py:274-333 | over all failure points: not created exactly if never sent or provably denied, fully read and closed; every receipt valid, with the stage and status at which things ended; dispatch_state takes its values in order exactly as far as the call gets; success exactly for a proven creation |

## Left out

- Routes, JSON schemas, model loading, sleeping, metrics and timing of the server context, authentication, cookies, header filtering and logging of the gateways: input and output.
- Slot choice by similarity and the prompt cache: floating point, and a cache that is not part of this model.
- Sliding-window and hybrid context checkpoints, multimodal prompts, LoRA, embeddings, rerank, parent and child tasks, synthetic acceptance, result 2 of the decoder.
- The draft model's own context, its catch-up and its checkpoint: the draft is an arbitrary sequence within the limit.
- The sampler and the model are one deterministic function; `llama_memory_*` and `common_sampler_sample_and_accept_n` are not part of the repository and are modelled by their use.
- The slot's context is at least four tokens, which `n_keep = min(n_ctx - 4, ...)` takes for granted.
- `n_accepted_per_pos`, the indentation limit and the time limit: the latter two are among the reasons that may end a request.
- SpeculativeSlot.Generate: every batch of the slot is decoded in one view; of a split batch only what abandoning it leaves is stated, by KvMemory.AbandonedBatchMirrorsIff.
- `string_find_partial_stop` and `validate_utf8` are not part of the repository: the former is modelled as the longest suffix that begins the word, the latter as an input for each piece. Erasure of text by the indentation limit is not modelled.
- EventStream.DecoderRefinesStream: messages carry the raw bytes of data and event name; decoding the JSON payload and the name's UTF-8 is left out.
- The requests of SlotQueue are identified by their arrival; the queue's clock is left out, a timeout may come at any moment.
- CredentialGuard.GuardTheorem: only session and reset replies carry a new token, as the routes intend; the release of the guard is not cancelled; the condition's own lock is not held across an await and does not appear; in-flight limits and the retry after 401 or 403 are separate requests.
- Gguf.FindAlignment: a string with digits outside ASCII, or with more digits than the interpreter accepts.
- Strings of the GGUF tools are their UTF-8 bytes, floating-point values their bit patterns; replacement of malformed UTF-8 is left out. A non-positive alignment is an error.
- HeadMeaning.MergedMeaning: exact real arithmetic; rounding in the kernels is not modelled.
- HeadVerification.ConvertedVerifies: the verifier's range check of d2t is not part of it, since it does not depend on the conversion.
- The rewriting half of d2t-inspect.py differs from make-t2d-head.py only in accepting an I32 map; make-t2d-head.py is modelled. The fork's graph code, which gathers or scatters, is not part of the repository.
- OwnedProcess.OwnedProcess.SetUp: validation of arguments, the start-up information and the identity query are single calls that succeed or fail; live identity checks and module inspection are left out.
- CallerCreate.Create: the checks of path, instance, authorization, token and time limit are one condition; decoding of the response text is a parameter; the bootstrap credential and its lease are left out.
- `remap-frspec.py`, which `convert-frspec-head.py` supersedes, and the benchmark, patching and plotting scripts.
