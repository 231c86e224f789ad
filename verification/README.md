# The token path of LiteRT-LM, verified

This project models the path of a token through the runtime of LiteRT-LM, from prefill to the text
that reaches the user's callback, and proves properties of it.

| file | component |
|---|---|
| `FenceSplitter.dfy` | the callback that cuts streamed text into plain text and fenced tool-call blocks |
| `StopTokens.dfy` | the incremental stop-token detector |
| `DecodeStep.dfy` | one decoding step: merging incomplete byte-pair tokens and withholding text |
| `ReleasedText.dfy` | which text is released before a stop, and on which stop sequences text is lost |
| `DecodeLoop.dfy` | the decoding loop, over the static executor, streaming and synchronous |
| `TokenHistory.dfy` | processed and pending tokens of every candidate |
| `WorkGroups.dfy`, `PrefillFeeding.dfy` | how a prefill is cut into model calls, and what they feed at which position |
| `KvCache.dfy`, `ExecutorBase.dfy` | key/value buffers, their copies, and what they hold |
| `CacheTensor.dfy` | a cache tensor along its dynamic axis: growing it and writing to it |
| `StaticExecutor.dfy`, `DynamicExecutor.dfy` | the two executors |
| `ExpandBuffer.dfy` | growing a tensor along one axis (module `TensorGrowth`) |
| `AttentionMask.dfy` | filling the attention mask |
| `Sampling.dfy` | top-k, softmax and top-p sampling, over the reals |
| `AudioChunks.dfy` | encoding audio in chunks |
| `Arithmetic.dfy`, `Wrappers.dfy` | shared facts about products, and result types |

Code that changes state in place is a class or an array method with loops and invariants, proved
against functions on values; the theorems are about those functions and about the invariants of the
classes. `dafny verify dfyconfig.toml` checks everything.

## What was found

The properties hold as promised except in the following cases, with the exact condition where it is
known.

* **Missed stop sequences.** After a mismatch the detector tries to restart with a match of length
  one only. It therefore misses `1 1 2` in the stream `1 1 1 2` (`StopTokens.MissedExample`). A
  detector with one stop sequence finds every occurrence if and only if the sequence is
  *restartable*: wherever its first token recurs before its last token, the whole sequence repeats
  with that period (`StopTokens.DetectsExactlyWhenRestartable`). The same condition decides whether
  tokens of an occurrence can be released (`DecodeStep.NeverReleasesExactlyWhenRestartable`). For several
  sequences it is sufficient, and necessary unless another sequence occurs in the stream on which one is
  missed (`StopTokens.SetDetectsExactly`).
  Whatever the sequences, no token of a match that *is* detected is ever released.
* **Text lost at a stop.** What is withheld for the longest partial match is lost when a shorter
  sequence completes first: with the sequences `1 2 3` and `2 4`, nothing of the stream `1 2 4` is
  released, although `1` comes before the stop (`ReleasedText.LostExample`). Sequences lose nothing, in
  any stream, if all but the last token of one never end a partial match of another that is at least
  as long (`ReleasedText.NoOverhang`, a condition on the sequences alone, which a single sequence
  always meets). For restartable sequences none of which occurs inside another, this is also
  necessary; for all restartable sequences the exact condition is that no such overhang can be the
  first stop of a stream (`ReleasedText.ExactlyWhenNothingLost`, `ReleasedText.OverhangLosesText`). All
  this is for detokenizers that give every token a text of its own; with incomplete byte-pair results
  even a single sequence can lose text (`ReleasedText.LostIncompleteExample`).
* **Prefill positions.** Prefill takes the position of the pending token from the number of processed
  tokens and the positions of the ids from `current_step_`. The two agree along prefills, but
  `current_step_` is one behind after a prefill of a single id without a pending token (lines 515-519
  of the executor) and after every decode with internal sampling. A prefill feeds every token at its
  own position if and only if the counters agree or each of its calls takes one id
  (`PrefillFeeding.FedAllInPlaceExactly`). Otherwise every call of two or more ids is one place
  off: its first id overwrites the entry of the pending token and its last place is not written. The
  cache row then holds the history if and only if, in each such call, all tokens fed are equal and the
  last place happens to hold that token (`PrefillFeeding.PrefillAfterDecodeExactly`). Likewise the mask
  row of each such id opens one column too many (`AttentionMask.MisplacedMaskRow`). Decoding needs no
  condition.
* **A comment.** The comment at lines 503-504 of the executor says that `internal_start_step` is the
  number of processed tokens plus one. The code makes it the number of processed tokens, and the model
  follows the code.
* **Audio slices.** The slices of successive chunks tile the output, for inputs of every length, if and
  only if the shrinking factor divides the chunk length (`AudioChunks.TilesExactlyWhenDivides`). The
  check in `Create` ensures that for static encoders. A streaming encoder has a lower factor. Its chunks
  are never written over one another (`AudioChunks.StreamingNeverOverwrites`), but if they overlap there
  is a gap after the first chunk, and the cut to the number of valid embeddings keeps the gap and drops
  embeddings at the end. For encoders that fill every chunk but the last, no embedding is
  ever lost if and only if the overlap is zero (`AudioChunks.StreamingLosslessExactly`); with chunks of 12 frames that overlap by 2 and give 2
  embeddings, 24 frames give three of their four embeddings and a zero
  (`AudioChunks.StreamingExamples`). The check also lets a factor of zero or less pass, by which
  `Encode` divides: the factor is positive if and only if the overlap and the embeddings of a chunk
  together do not exceed its length (`AudioChunks.StreamingFactorPositive`).
* **Unreachable code.** `ConsumePendingOrAddProcessedToken` never takes its fallback in either
  executor: a decode that reaches it has a pending token.
* **Dynamic executor.** A first prefill of one id allocates no cache, so the decode after it fails
  (`DynamicExecutor.DecodeAfterSingleId`).

## Model

Source lines refer to the repository of the runtime.

| member | source | states |
|---|---|---|
| `FenceSplitter.Find` | runtime/conversation/internal_callback_util.cc:145-146 | `std::string::find`: an occurrence at or after the start, with none before it; nothing found means there is none at all |
| `FenceSplitter.SuffixPrefixOverlap` | runtime/conversation/internal_callback_util.cc:38-52 | the result is the longest suffix of the first text that is a prefix of the second; no longer one exists |
| `FenceSplitter.ParseKeepsText` | runtime/conversation/internal_callback_util.cc:137-211 | conservation: the pieces of the one-shot parse, put together, are the text |
| `FenceSplitter.ParseJoined` | runtime/conversation/internal_callback_util.cc:137-211 | the parse has no empty plain piece and no two plain pieces in a row, so comparing with it after joining is exact |
| `FenceSplitter.ParseIsWellSplit` | runtime/conversation/internal_callback_util.cc:145-209 | in the parse every block runs from a start fence to the first end fence after it, only the last may be unclosed, and no start fence begins inside plain text, not even one that runs into the next piece |
| `FenceSplitter.WellSplitIsParse` | runtime/conversation/internal_callback_util.cc:145-209 | the converse: any split with these properties is the parse, so they determine it |
| `FenceSplitter.JoinFlatten` | runtime/conversation/internal_callback_util.cc:164-186 | joining adjacent plain pieces keeps the characters and whole blocks, in order |
| `FenceSplitter.FlattenInjective` | runtime/conversation/internal_callback_util.cc:164-186 | joined pieces are determined by their characters and whole blocks |
| `FenceSplitter.StepToFence` | runtime/conversation/internal_callback_util.cc:145-157 | a start fence that is found splits the text there whatever text follows later |
| `FenceSplitter.StepToBlockEnd` | runtime/conversation/internal_callback_util.cc:193-204 | an end fence that is found closes the block whatever text follows later |
| `FenceSplitter.StepOverPlain` | runtime/conversation/internal_callback_util.cc:158-187 | text in which no fence can begin is plain in the parse of the text with any continuation |
| `FenceSplitter.NoFenceBeforeOverlap` | runtime/conversation/internal_callback_util.cc:158-186 | after an unsuccessful search no continuation can make a fence begin before the longest overlap |
| `FenceSplitter.RefinesAtEnd` | runtime/conversation/internal_callback_util.cc:70-79 | once nothing more can be sent, sending the held text completes the one-shot parse |
| `FenceSplitter.HoldBackIsExact` | runtime/conversation/internal_callback_util.cc:158-187 | outside a block the withheld text is the longest suffix of the current plain text, reaching back over what was already sent, that is a prefix of the start fence: neither more nor less |
| `FenceSplitter.InternalCallback.constructor` | runtime/conversation/internal_callback_util.cc:102-108 | the initial state satisfies the invariant: sent text is the text up to the cursor, refines the one-shot parse for every continuation, and nothing more could be sent |
| `FenceSplitter.InternalCallback.SendMessage` | runtime/conversation/internal_callback_util.cc:54-68 | empty text sends nothing, other text exactly one message |
| `FenceSplitter.InternalCallback.SendCompleteMessage` | runtime/conversation/internal_callback_util.cc:70-92 | the exact calls made at the end, after which the messages sent join to the one-shot parse |
| `FenceSplitter.InternalCallback.ScanPlainText` | runtime/conversation/internal_callback_util.cc:144-189 | keeps the invariant; either waits with the hold-back exact, or has entered a block or consumed everything |
| `FenceSplitter.InternalCallback.ScanBlock` | runtime/conversation/internal_callback_util.cc:191-210 | keeps the invariant; either waits for the end fence or sends the block as one message and moves the cursor on |
| `FenceSplitter.InternalCallback.ProcessAccumulated` | runtime/conversation/internal_callback_util.cc:143-211 | the loop terminates and ends with the invariant and an exact hold-back; it only sends pieces and never moves the cursor back |
| `FenceSplitter.InternalCallback.OnResponse` | runtime/conversation/internal_callback_util.cc:108-213 | for each kind of response: what is accumulated, that calls are only appended, what an error or cancellation calls, and that at the end the messages join to the one-shot parse and the whole text is reported complete |
| `FenceSplitter.RunStream` | runtime/conversation/internal_callback_util.cc:96-214 | for every way of cutting a text into chunks, the joined messages are the one-shot parse of the whole text, which is reported complete |
| `StopTokens.AdvanceSound` | runtime/components/stop_token_detector.cc:116-127 | if the last m tokens are the first m of the sequence, the same holds of the new progress after one more token |
| `StopTokens.ProgressSound` | runtime/components/stop_token_detector.cc:111-127 | for every sequence and stream, a progress of m means that the last m tokens are the first m of the sequence |
| `StopTokens.ProgressLongest` | runtime/components/stop_token_detector.cc:116-127 | with a restartable sequence, until its first full match, no longer suffix of the stream is a prefix of it |
| `StopTokens.FirstBreak` | runtime/components/stop_token_detector.cc:119-127 | a sequence that is not restartable has a proper border that cannot be extended the way the sequence goes on |
| `StopTokens.MissedMatch` | runtime/components/stop_token_detector.cc:119-127 | for every sequence that is not restartable, a stream that ends with it on which the progress never reaches its length |
| `StopTokens.MissedExample` | runtime/components/stop_token_detector.cc:119-127 | `1 1 2` occurs in `1 1 1 2` and is not found |
| `StopTokens.StepSound` | runtime/components/stop_token_detector.cc:103-137 | for every set of sequences: one step keeps all progress sound, and once an item has stopped the start of its stop sequence stays where it is |
| `StopTokens.AddSound` | runtime/components/stop_token_detector.cc:69-74 | adding a sequence at any time keeps the state sound for the tokens already processed |
| `StopTokens.MatchWasExpected` | runtime/components/stop_token_detector.cc:129-135 | the longest partial match grows by at most one per step, and the match that stops an item is not longer than it |
| `StopTokens.RunSound` | runtime/components/stop_token_detector.cc:103-137 | for every set of sequences and stream: tokens processed minus matched length is where a stored stop sequence begins |
| `StopTokens.RunProgress` | runtime/components/stop_token_detector.cc:103-137 | until an item stops it holds the progress of every sequence, and it stops exactly when one is fully matched |
| `StopTokens.FoundOccurs` | runtime/components/stop_token_detector.cc:129-133 | an item stops only if some stop sequence has occurred |
| `StopTokens.FoundExactly` | runtime/components/stop_token_detector.cc:103-137 | with restartable sequences an item has stopped exactly when some stop sequence has occurred, hence at the first occurrence |
| `StopTokens.DetectsExactlyWhenRestartable` | runtime/components/stop_token_detector.cc:119-127 | a single sequence is detected in all streams if and only if it is restartable |
| `StopTokens.UnmaskedIsMissed` | runtime/components/stop_token_detector.cc:119-127 | for every place where a sequence of a set fails to repeat, a stream on which nothing is found although that sequence has occurred, provided no other one occurs there |
| `StopTokens.SetDetectsExactly` | runtime/components/stop_token_detector.cc:103-137 | a set in which no sequence masks a miss of another one is detected in all streams if and only if all its sequences are restartable |
| `StopTokens.StopTokenDetector.constructor` | runtime/components/stop_token_detector.cc:47-50 | a valid detector without sequences or tokens |
| `StopTokens.StopTokenDetector.AddStopTokenSequence` | runtime/components/stop_token_detector.cc:52-76 | an empty sequence is an error and a known one is ignored; a new one is added and nothing else changes, also in the middle of a stream |
| `StopTokens.StopTokenDetector.ResetBatch` | runtime/components/stop_token_detector.cc:78-87 | every item starts afresh; a size of zero keeps the number of items |
| `StopTokens.StopTokenDetector.ProcessToken` | runtime/components/stop_token_detector.cc:109-136 | the loop over the sequences makes the step that the theorems are about, and touches no other item |
| `StopTokens.StopTokenDetector.ProcessTokens` | runtime/components/stop_token_detector.cc:90-139 | the error cases, in which no item changes; otherwise every item takes one step and all stay sound for their extended streams |
| `StopTokens.StopTokenDetector.AllDone` | runtime/components/stop_token_detector.cc:149-157 | an empty batch is an error; if all have stopped, a stored stop sequence begins in every stream where the matched length says; with restartable sequences all have stopped exactly when some stop sequence has occurred in every stream |
| `DecodeStep.StepFlowFlat` | runtime/core/tasks.cc:150-176 | before a stop, released, queued and partial tokens together are those of before and the new one, in order, and enough stay withheld |
| `DecodeStep.StepSafe` | runtime/core/tasks.cc:149-177 | one step keeps: before a stop all tokens are accounted for in order and at least the longest partial match is withheld; after it only tokens before the stop sequence have been released |
| `DecodeStep.RunSafe` | runtime/core/tasks.cc:130-186 | the same after every stream, for every set of sequences and every pattern of incomplete byte-pair results |
| `DecodeStep.NoStopTokenReleased` | runtime/core/tasks.cc:139-177 | no token of the matched stop sequence is ever released, and what is released is a prefix of the stream |
| `DecodeStep.QueuedExactly` | runtime/core/tasks.cc:157-175 | without incomplete tokens the queue holds exactly as many tokens as the longest partial match |
| `DecodeStep.WithheldExactly` | runtime/core/tasks.cc:157-175 | without incomplete tokens the released tokens are the stream without its longest partial match |
| `ReleasedText.NoOverhangReleasesExactly` | runtime/core/tasks.cc:149-177 | stop sequences without overhang release, for every stream and for as long as decoding goes on, exactly the tokens before the stop sequence |
| `ReleasedText.InexactStop` | runtime/core/tasks.cc:153-175 | a stream whose release is not exact has, at its stop, a partial match that is at least as long as the sequence that completes and ends with all but its last token |
| `ReleasedText.InexactLosesText` | runtime/core/tasks.cc:153-175 | with restartable sequences that overhang can be the first stop of a stream of its own |
| `ReleasedText.LosingStream` | runtime/core/tasks.cc:153-175 | conversely, on that stream nothing is released although there are tokens before the stop sequence |
| `ReleasedText.ExactlyWhenNothingLost` | runtime/core/tasks.cc:149-177 | restartable sequences release exactly the tokens before the stop in all streams if and only if no overhang can be a first stop |
| `ReleasedText.OverhangLosesText` | runtime/core/tasks.cc:149-177 | when no sequence occurs inside another, that is the absence of overhang |
| `ReleasedText.LostExample` | runtime/core/tasks.cc:153-175 | with `1 2 3` and `2 4`, nothing of `1 2 4` is released |
| `ReleasedText.LostIncompleteExample` | runtime/core/tasks.cc:149-155 | with the single sequence `7 8` and a token 1 that has a text only together with 7, nothing of `1 7 8` is released |
| `ReleasedText.ReleasedTextExactly` | runtime/core/tasks.cc:149-177 | when every token has a text of its own, the released text is that of all tokens but the longest partial match, and after an exact stop that of all tokens before the stop sequence, token by token |
| `ReleasedText.NoOverhangReleasesText` | runtime/core/tasks.cc:149-177 | without overhang the output is exactly the text of the tokens before the stop sequence |
| `ReleasedText.OneSequenceReleasedExactly` | runtime/core/tasks.cc:149-177 | with one stop sequence, the tokens released and their text are exactly those before it, however long decoding goes on |
| `DecodeStep.HoldsBackAlways` | runtime/core/tasks.cc:149-177 | with restartable sequences no token of any match, partial or full, at the end of the stream has been released |
| `DecodeStep.NoOccurrenceReleased` | runtime/core/tasks.cc:149-177 | with restartable sequences no token of any occurrence of any of them is ever released |
| `DecodeStep.NeverReleasesExactlyWhenRestartable` | runtime/core/tasks.cc:149-177 | for one sequence, that no occurrence is ever released holds if and only if the sequence is restartable |
| `DecodeStep.PopExcess` | runtime/core/tasks.cc:163-166 | leaves the latest texts in the queue and returns the others, joined in order |
| `DecodeStep.DecodeOneStep.constructor` | runtime/core/tasks.cc:99-124 | a runner with empty queues and its own copy of the detector, in whatever state that is |
| `DecodeStep.DecodeOneStep.UpdateCandidate` | runtime/core/tasks.cc:150-176 | the queue, the partial ids and the result text are those of the token-level step, for this candidate and no other |
| `DecodeStep.DecodeOneStep.Run` | runtime/core/tasks.cc:130-186 | the error cases; otherwise every candidate takes the step of the theorems with its own token, the result says whether all have stopped, and items and flows stay those of the tokens given since the detector was copied |
| `DecodeStep.DecodeOneStep.SafeFromStart` | runtime/core/tasks.cc:130-186 | for a detector copied before its first token, the results about whole streams hold of what the runner has released |
| `TokenHistory.ApplyUniform` | runtime/executor/llm_executor_processed_tokens.cc:69-168 | every operation keeps all rows equally long and all or none pending |
| `TokenHistory.ApplyProjects` | runtime/executor/llm_executor_processed_tokens.cc:69-168 | an operation on all candidates does to each what its projection does to that candidate alone, with the same status |
| `TokenHistory.RunProjects` | runtime/executor/llm_executor_processed_tokens.cc:35-63 | broadcasting, running any operations, then reducing to candidate i is the run of its projections on a single candidate |
| `TokenHistory.RunProjectsStatus` | runtime/executor/llm_executor_processed_tokens.cc:69-145 | and each operation reports the same status in both runs |
| `TokenHistory.ProcessedTokens.TokenCount` | runtime/executor/llm_executor_processed_tokens.cc:31-33 | although computed from the first row, it is the number of tokens of every row |
| `TokenHistory.ProcessedTokens.ReduceTokenCandidates` | runtime/executor/llm_executor_processed_tokens.cc:35-46 | keeps exactly the chosen row, or changes nothing and reports an index out of range |
| `TokenHistory.ProcessedTokens.BroadcastTokenCandidates` | runtime/executor/llm_executor_processed_tokens.cc:48-63 | equal copies of the single row; the two error cases change nothing |
| `TokenHistory.ProcessedTokens.AddProcessedTokens` | runtime/executor/llm_executor_processed_tokens.cc:69-73 | the ids are appended to every row, and pending tokens stay |
| `TokenHistory.ProcessedTokens.AddPendingInputToken` | runtime/executor/llm_executor_processed_tokens.cc:75-90 | each row gets its own pending token; a wrong number or an existing pending token is an error that changes nothing |
| `TokenHistory.ProcessedTokens.RollBackToStep` | runtime/executor/llm_executor_processed_tokens.cc:92-112 | each row keeps exactly its first tokens, counting the pending one; the error cases change nothing |
| `TokenHistory.ProcessedTokens.GetTokenAtStep` | runtime/executor/llm_executor_processed_tokens.cc:114-132 | the token of every row at the step, processed or pending; nothing outside the history |
| `TokenHistory.ProcessedTokens.MarkPendingInputTokenAsProcessed` | runtime/executor/llm_executor_processed_tokens.cc:134-145 | every pending token moves to the end of its row; without one, an error that changes nothing |
| `TokenHistory.ProcessedTokens.GetCopyOfTokens` | runtime/executor/llm_executor_processed_tokens.cc:147-157 | the whole history of every row, pending token included |
| `TokenHistory.ProcessedTokens.InvalidatePendingInputToken` | runtime/executor/llm_executor_processed_tokens.cc:164-168 | afterwards every row has its old ids, and nothing is pending |
| `TokenHistory.ProcessedTokens.GetNextUnprocessedToken` | runtime/executor/llm_executor_processed_tokens.cc:65-67 | the step and the pending token of every row, or none |
| `WorkGroups.GetOptimizedPrefillWorkGroups` | runtime/executor/litert_compiled_model_executor_utils.cc:203-233 | the lengths sum to the input; all calls but the last are full calls of the largest runner; the last fits the smallest runner that can take it |
| `WorkGroups.FewestCalls` | runtime/executor/litert_compiled_model_executor_utils.cc:207-211 | no other way of covering the input with the available runners needs fewer calls |
| `WorkGroups.SingleFirstCall` | runtime/executor/litert_compiled_model_executor_utils.cc:213-231 | a first call of one token that is not the last means that every call is of one token |
| `KvCache.RepeatRow` | runtime/executor/llm_litert_compiled_model_executor.cc:158-161 | every row of a broadcast buffer is the source |
| `KvCache.WriteRowsRow` | runtime/executor/llm_litert_compiled_model_executor.cc:637-640 | writing all rows of a flat buffer writes each row on its own, without touching the others |
| `KvCache.WriteRowHolds` | runtime/executor/llm_litert_compiled_model_executor.cc:538-549 | feeding tokens at the positions that follow extends what a row holds by exactly these tokens |
| `KvCache.CopyKvCacheBuffers` | runtime/executor/llm_litert_compiled_model_executor.cc:118-165 | succeeds exactly when every source name exists in the destination with fitting sizes; then every such buffer is the chosen row or the repeated source and no other buffer changes; which error means what |
| `KvCache.BroadcastThenReduce` | runtime/executor/llm_litert_compiled_model_executor.cc:147-162 | reducing a broadcast to any of its rows gives back the source |
| `PrefillFeeding.CutsDoNotMatter` | runtime/executor/llm_litert_compiled_model_executor.cc:1056-1069 | however a prefill is cut into calls, the old history and all ids but the last are processed and the last is pending |
| `PrefillFeeding.FedTokens` | runtime/executor/llm_litert_compiled_model_executor.cc:520-549 | a call feeds the pending token and all ids but the last, and no more tokens than it was given ids, so it fits its runner |
| `PrefillFeeding.CutsFeedTheSame` | runtime/executor/llm_litert_compiled_model_executor.cc:1056-1069 | however a prefill is cut, the calls together feed the old pending token and all ids but the last, in order |
| `PrefillFeeding.StepKeepsInStep` | runtime/executor/llm_litert_compiled_model_executor.cc:515-519 | `current_step_` is never more than one behind, and a call keeps the counters in agreement unless it only stores its id |
| `PrefillFeeding.FedInPlaceExactly` | runtime/executor/llm_litert_compiled_model_executor.cc:538-549 | one call feeds every token at its own position if and only if the counters agree or it has one id |
| `PrefillFeeding.WorkGroupsCutRegularly` | runtime/executor/litert_compiled_model_executor_utils.cc:213-231 | the work groups cut the ids completely into non-empty calls, and begin with a single id only if all calls are single |
| `PrefillFeeding.AlignedAfter` | runtime/executor/llm_litert_compiled_model_executor.cc:515-549 | the counters agree after a whole prefill if and only if they did before and the first call did not just store its id |
| `PrefillFeeding.FedAllInPlaceExactly` | runtime/executor/llm_litert_compiled_model_executor.cc:538-549 | a whole prefill feeds contiguous positions from the processed count if and only if the counters agree or every call takes one id |
| `PrefillFeeding.FedKeepsRow` | runtime/executor/llm_litert_compiled_model_executor.cc:538-549 | a call that feeds in place keeps the cache row equal to the processed tokens |
| `PrefillFeeding.MisplacedExactly` | runtime/executor/llm_litert_compiled_model_executor.cc:538-546 | one call when the counters differ: the row holds the history afterwards if and only if all tokens fed are equal and the last place already held that token, or the call has one id |
| `PrefillFeeding.PrefillAfterDecodeExactly` | runtime/executor/llm_litert_compiled_model_executor.cc:538-549 | a whole prefill when the counters differ, however it is cut: the row holds the history if and only if that is so in every call |
| `PrefillFeeding.PrefillAfterDecodeMisplaces` | runtime/executor/llm_litert_compiled_model_executor.cc:538-546 | a whole prefill whose first call has two or more ids and begins with another id than the pending token: in the end the entry of the pending token is that of the first id, and the row does not hold the history |
| `ExecutorBase.BroadcastHolds` | runtime/executor/llm_litert_compiled_model_executor.cc:810-819 | the broadcast cache holds the broadcast rows |
| `ExecutorBase.ReduceHolds` | runtime/executor/llm_litert_compiled_model_executor.cc:1023-1028 | the reduced cache holds the row that is kept |
| `ExecutorBase.DecodeHolds` | runtime/executor/llm_litert_compiled_model_executor.cc:743-756 | a decode of all candidates at the processed count leaves every row of the cache holding its candidate's tokens; no condition on `current_step_` |
| `ExecutorBase.PrefillHolds` | runtime/executor/llm_litert_compiled_model_executor.cc:538-549 | a prefill call that feeds in place leaves the cache holding the new history |
| `ExecutorBase.FillInputs` | runtime/executor/llm_litert_compiled_model_executor.cc:505-619 | the loop that fills tokens and positions, and its updates of history and `current_step_`, are one specified prefill step |
| `ExecutorBase.GetTokenToDecode` | runtime/executor/llm_litert_compiled_model_executor.cc:644-687 | given ids become the pending tokens unless the first is negative, otherwise the pending ones stay; a wrong number is an error; the step is the processed count |
| `ExecutorBase.ConsumePendingOrAddProcessedToken` | runtime/executor/llm_litert_compiled_model_executor.cc:689-706 | consumes the pending tokens, or appends the given ones when there are none |
| `StaticExecutor.Executor.constructor` | runtime/executor/llm_litert_compiled_model_executor.h:141-158 | an empty executor is valid: rows, decode flag and active cache pair agree, and the cache holds the history |
| `StaticExecutor.Executor.RunAndSwap` | runtime/executor/llm_litert_compiled_model_executor.cc:637-641 | after a call and the swap the active buffers are the written ones and the active pair is still the pair of the mode |
| `StaticExecutor.Executor.PrefillInternal` | runtime/executor/llm_litert_compiled_model_executor.cc:473-642 | one specified prefill step on the counters and the feed, keeping cache and history in agreement when it feeds in place |
| `StaticExecutor.Executor.ReduceToOne` | runtime/executor/llm_litert_compiled_model_executor.cc:1017-1032 | after a decode the first candidate's row and cache row are kept, the prefill pair is active again with exactly the reduced contents, and they agree |
| `StaticExecutor.Executor.RunGroups` | runtime/executor/llm_litert_compiled_model_executor.cc:1056-1069 | the loop over the work groups is the whole prefill of the theorems: counters, tokens fed, and the contents of every cache row, in place or not |
| `StaticExecutor.Executor.Prefill` | runtime/executor/llm_litert_compiled_model_executor.cc:1014-1098 | the error cases; otherwise, for any runners and any number of candidates decoded before, every call fits its runner, all ids but the last are processed, the last is pending, the tokens fed and the cache contents are those of the specification, and the cache holds the history if the feed was in place |
| `StaticExecutor.Executor.PrepareFirstDecode` | runtime/executor/llm_litert_compiled_model_executor.cc:799-824 | every candidate gets its own row of history and cache, and they agree |
| `StaticExecutor.Executor.DecodeInternal` | runtime/executor/llm_litert_compiled_model_executor.cc:708-797 | writes each candidate's token at the given position of its own row, or fails without a token and changes nothing |
| `StaticExecutor.Executor.DecodeLogits` | runtime/executor/llm_litert_compiled_model_executor.cc:893-959 | the exact error cases; otherwise every row has its old ids, followed by the given id if the first given one is not negative and by its pending one if not, and nothing pending; the counters agree, and cache and history still agree |
| `StaticExecutor.Executor.Decode` | runtime/executor/llm_litert_compiled_model_executor.cc:831-875 | every row has its old ids, followed by its pending one; the output is what is sampled from these rows, with 0 for negative ids, and becomes pending; a wrong number of sampled ids is an error; `current_step_` is left one behind |
| `StaticExecutor.Executor.Reset` | runtime/executor/llm_litert_compiled_model_executor.cc:992-996 | forgets the history of every row and keeps the mode; cache and history agree |
| `DynamicExecutor.Executor.constructor` | runtime/executor/llm_litert_compiled_model_executor.h:370-384 | an executor without history and without cache buffers is valid |
| `CacheTensor.PlacesKept` | runtime/executor/llm_litert_compiled_model_executor.cc:292-339 | growing a tensor by `ExpandBuffer` keeps what it holds at every index of the axis, wherever the axis lies, and the new indices are zero |
| `CacheTensor.Resize` | runtime/executor/llm_litert_compiled_model_executor.cc:292-339 | the new buffer is the grown tensor; adding nothing is an error |
| `CacheTensor.PlaceWritten` | runtime/executor/llm_litert_compiled_model_executor.cc:637-640 | writing an entry at one index of the axis changes that index and no other |
| `CacheTensor.GrownShows` | runtime/executor/llm_litert_compiled_model_executor.cc:1452-1469 | a grown tensor still holds the entry of every token it stood for |
| `CacheTensor.WrittenShows` | runtime/executor/llm_litert_compiled_model_executor.cc:637-640 | after a model call a tensor holds the entries of the fed tokens at their positions and what it held elsewhere |
| `DynamicExecutor.GrownCoupled` | runtime/executor/llm_litert_compiled_model_executor.cc:1452-1469 | growing all key and value tensors, each along its own axis, keeps the place of every token in every tensor |
| `DynamicExecutor.GrownHolds` | runtime/executor/llm_litert_compiled_model_executor.cc:1448-1471 | and the grown cache holds the history if it did before |
| `DynamicExecutor.FedBelow` | runtime/executor/llm_litert_compiled_model_executor.cc:1408-1451 | every position fed lies below what is processed afterwards, whether or not the counters agree |
| `DynamicExecutor.Executor.PlacesHold` | runtime/executor/llm_litert_compiled_model_executor.cc:1503-1520 | what holding the history means: place p of every tensor is the entry of the token at step p |
| `DynamicExecutor.Executor.Grow` | runtime/executor/llm_litert_compiled_model_executor.cc:1452-1471 | all tensors grow by `ExpandBuffer` to the same length, and every place keeps its token |
| `DynamicExecutor.Executor.GrowIfNeeded` | runtime/executor/llm_litert_compiled_model_executor.cc:1448-1471 | afterwards the entries fit; growing keeps every earlier place and the agreement |
| `DynamicExecutor.Executor.Allocate` | runtime/executor/llm_litert_compiled_model_executor.cc:1417-1436 | the first cache covers the prefill |
| `DynamicExecutor.Executor.RunInPlace` | runtime/executor/llm_litert_compiled_model_executor.cc:637-640 | the model call on the same input and output tensors, under the contract of the call |
| `DynamicExecutor.Executor.FeedModel` | runtime/executor/llm_litert_compiled_model_executor.cc:1474-1483 | one prefill step with every position inside the cache, and the exact cache contents, in place or not |
| `DynamicExecutor.Executor.Prefill` | runtime/executor/llm_litert_compiled_model_executor.cc:1392-1484 | the error cases; otherwise one prefill step: all ids but the last are processed, the last is pending; the exact growth of the cache, which covers every position fed |
| `DynamicExecutor.Executor.DecodeInternal` | runtime/executor/llm_litert_compiled_model_executor.cc:1486-1532 | grows the cache if the position would lie outside; keeps the agreement; fails without a cache or a token |
| `DynamicExecutor.Executor.DecodeLogits` | runtime/executor/llm_litert_compiled_model_executor.cc:893-959 | the exact error cases and, row by row, the history after each of them; the exact growth of the cache; the counters agree afterwards |
| `DynamicExecutor.Executor.Decode` | runtime/executor/llm_litert_compiled_model_executor.cc:831-875 | the pending id is processed and the sampled one becomes pending, 0 for a negative one; which errors leave which history; the exact growth of the cache, `current_step_` is left one behind, and cache and history agree |
| `DynamicExecutor.Executor.Reset` | runtime/executor/llm_litert_compiled_model_executor.cc:992-996 | forgets the history, keeps the cache |
| `DynamicExecutor.DecodeAfterSingleId` | runtime/executor/llm_litert_compiled_model_executor.cc:1411-1415 | a first prefill of a single id leaves the executor without a cache, and the decode after it fails |
| `TensorGrowth.OffsetSplit` | runtime/executor/llm_litert_compiled_model_cache_utils.cc:153-168 | the row-major offset splits at any axis into outer blocks and an inner offset, for shapes of any rank |
| `TensorGrowth.OffsetBound` | runtime/executor/llm_litert_compiled_model_cache_utils.cc:147-151 | the offset of a multi-index inside a shape is less than the number of elements |
| `TensorGrowth.ExpandedAt` | runtime/executor/llm_litert_compiled_model_cache_utils.cc:170-185 | byte by byte: the byte at place t of block i is the source byte at the same place, or zero past the source block |
| `TensorGrowth.ByteOnAxis` | runtime/executor/llm_litert_compiled_model_cache_utils.cc:165-182 | where a byte of an element lies, in terms of its outer block, its place on the axis, and what is inside |
| `TensorGrowth.ElementsKept` | runtime/executor/llm_litert_compiled_model_cache_utils.cc:123-188 | for every multi-index of the destination: the element of the source at the same multi-index if there is one, zero otherwise |
| `TensorGrowth.GrowTwice` | runtime/executor/llm_litert_compiled_model_cache_utils.cc:123-188 | growing an axis twice gives the tensor that growing it once does |
| `TensorGrowth.FindExpansionAxis` | runtime/executor/llm_litert_compiled_model_cache_utils.cc:128-145 | succeeds exactly when some axis is the only one to differ and is larger in the destination, and returns that axis |
| `TensorGrowth.CopyBlock` | runtime/executor/llm_litert_compiled_model_cache_utils.cc:177-184 | the inner copies together copy one contiguous block and touch nothing else |
| `TensorGrowth.CopyBlocks` | runtime/executor/llm_litert_compiled_model_cache_utils.cc:170-185 | the copies stay in range and leave every source block followed by zeros |
| `TensorGrowth.ExpandBuffer` | runtime/executor/llm_litert_compiled_model_cache_utils.cc:123-188 | which shapes are errors, leaving the destination as it was; otherwise the destination is the expanded tensor of the lemmas |
| `AttentionMask.FilledAt` | runtime/executor/litert_compiled_model_executor_utils.cc:285-302 | when rows are wide enough, every column of every row of every batch element is open exactly up to the row's time step, and rows after the last step stay as they were |
| `AttentionMask.ChunkMaskRow` | runtime/executor/llm_litert_compiled_model_executor.cc:594-599 | the rows a prefill call fills are those of the full causal mask from the processed tokens on, wherever the tokens are fed |
| `AttentionMask.ChunkMaskIsCausal` | runtime/executor/llm_litert_compiled_model_executor.cc:538-599 | the row of every fed token is that of the full causal mask at its position if and only if the call feeds in place |
| `AttentionMask.MisplacedMaskRow` | runtime/executor/llm_litert_compiled_model_executor.cc:538-599 | otherwise the row of each id opens one column past its position |
| `AttentionMask.PrefillMasksAreCausal` | runtime/executor/llm_litert_compiled_model_executor.cc:594-599 | over all calls of a prefill whose counters agree, the row of each token is that of the full causal mask at its place among all tokens |
| `AttentionMask.InitializeAttentionMask` | runtime/executor/litert_compiled_model_executor_utils.cc:235-261 | every element gets the closed value, given for each element type and precision, or an error leaves the mask |
| `AttentionMask.ClosedBelowOpen` | runtime/executor/litert_compiled_model_executor_utils.cc:243-284 | the closed value is below the open one for every supported type |
| `AttentionMask.FillAttentionMask` | runtime/executor/litert_compiled_model_executor_utils.cc:263-304 | the error cases; otherwise exactly the elements of the rows of the steps are opened, also when a row runs past its width, and nothing else changes; when the rows are wide enough, column c of row i of every batch element is open, at its place by the dimensions, exactly if i is a step and c is no later than it |
| `AttentionMask.FillBlock` | runtime/executor/litert_compiled_model_executor_utils.cc:286-301 | the loop over the steps opens the rows of one batch element |
| `Sampling.MaxElement` | runtime/components/sampling_cpu_util.cc:48-53 | the first of the largest values |
| `Sampling.TopKRow` | runtime/components/sampling_cpu_util.cc:46-75 | k different tokens, and no other token has a larger logit than any of them |
| `Sampling.TopKTokenIds` | runtime/components/sampling_cpu_util.cc:35-78 | that for every batch row of the flat buffers, or an error for a size that is no multiple of the batch |
| `Sampling.NormalisedWeights` | runtime/components/sampling_cpu_util.cc:121-148 | with any positive, increasing exponential the normalised weights are positive, sum to one, and are ordered as the logits; the sum is at least one, so the fallbacks are not reached |
| `Sampling.NormalisedIsSoftmax` | runtime/components/sampling_cpu_util.cc:121-148 | the normalised weights have the ratios of the exponentials of the logits over the temperature |
| `Sampling.SoftmaxUnique` | runtime/components/sampling_cpu_util.cc:121-148 | there is only one distribution with these ratios |
| `Sampling.SoftmaxRow` | runtime/components/sampling_cpu_util.cc:102-149 | the loops compute these weights around the largest logit |
| `Sampling.AllMass` | runtime/components/sampling_cpu_util.cc:219-228 | in any order, all k candidates together reach mass one |
| `Sampling.TopPCutoff` | runtime/components/sampling_cpu_util.cc:214-229 | the kept candidates are the shortest non-empty sorted prefix whose mass reaches p, with positive mass |
| `Sampling.PickKept` | runtime/components/sampling_cpu_util.cc:242-253 | for every draw up to the kept mass the loop assigns a kept candidate: the first whose cumulative mass reaches the draw |
| `Sampling.ZeroKeepsLargest` | runtime/components/sampling_cpu_util.cc:216-229 | with p = 0 only one candidate is kept, and it has the largest value |
| `Sampling.SampleRow` | runtime/components/sampling_cpu_util.cc:196-254 | one row: a draw from the kept prefix, with the score that the code returns |
| `Sampling.GreedyIsLargest` | runtime/components/sampling_cpu_util.cc:186-253 | with p = 0 or k = 1 the sampled token has the largest logit of the whole vocabulary |
| `Sampling.TopKTopPSampling` | runtime/components/sampling_cpu_util.cc:154-256 | exactly which arguments are errors; otherwise every batch row's token was drawn from the shortest sorted prefix of the softmax of its top k at the given temperature, or at the smallest one allowed, with its probability as score, 1.0 for k = 1, and its weight if the kept mass vanishes |
| `AudioChunks.CeilBounds` | runtime/executor/audio_litert_compiled_model_executor.cc:99 | the quotient rounded up is the least number of blocks that cover the length |
| `AudioChunks.CeilUnique` | runtime/executor/audio_litert_compiled_model_executor.cc:99 | it is the only such number |
| `AudioChunks.SliceInRange` | runtime/executor/audio_litert_compiled_model_executor.cc:627-632 | every slice lies inside the output, whatever the factor |
| `AudioChunks.TilesExactlyWhenDivides` | runtime/executor/audio_litert_compiled_model_executor.cc:619-639 | the slices of successive chunks tile without gap or overlap, for inputs of every length, if and only if the factor divides the chunk length |
| `AudioChunks.StaticEncoderTiles` | runtime/executor/audio_litert_compiled_model_executor.cc:529-545 | the check made when the executor is created is enough for a static encoder |
| `AudioChunks.StreamingFactorIsLower` | runtime/executor/audio_litert_compiled_model_executor.cc:546-552 | the factor of a streaming encoder is the static one less what it takes to cover the overlap |
| `AudioChunks.StreamingFactorPositive` | runtime/executor/audio_litert_compiled_model_executor.cc:529-552 | a streaming encoder that passes the check has a positive factor if and only if overlap and embeddings together do not exceed the chunk |
| `AudioChunks.StreamingNeverOverwrites` | runtime/executor/audio_litert_compiled_model_executor.cc:546-552 | what a chunk of a streaming encoder can produce ends before the slice of the next chunk begins |
| `AudioChunks.StreamingGapsExactly` | runtime/executor/audio_litert_compiled_model_executor.cc:546-552 | an overlap leaves a gap after the first chunk; the slices follow one another without gaps if and only if there is no overlap |
| `AudioChunks.StreamingLosslessExactly` | runtime/executor/audio_litert_compiled_model_executor.cc:603-652 | for every encoder function that fills its chunks and inputs of every length, the output is exactly the valid embeddings in order, if and only if the chunks do not overlap |
| `AudioChunks.StreamingExamples` | runtime/executor/audio_litert_compiled_model_executor.cc:529-552 | concrete encoders that pass the check: one that loses an embedding, one whose slices tile all the same, one with factor zero |
| `AudioChunks.LayoutConcatenates` | runtime/executor/audio_litert_compiled_model_executor.cc:619-639 | when the slices tile and all but the last chunk fill theirs, the output is the chunks' embeddings one after the other |
| `AudioChunks.ConcatenatedIsWhole` | runtime/executor/audio_litert_compiled_model_executor.cc:619-639 | for an encoder for which adjacent ranges can be joined, the chunks are the encoding of the whole input: the ranges passed cover it without gap or overlap |
| `AudioChunks.GetValidCount` | runtime/executor/audio_litert_compiled_model_executor.cc:77-86 | the length of the mask without its trailing zeros |
| `AudioChunks.SlicesFitOutput` | runtime/executor/audio_litert_compiled_model_executor.cc:627-632 | an encoder that keeps to its slices writes inside the output, and no valid embedding is cut off |
| `AudioChunks.Encode` | runtime/executor/audio_litert_compiled_model_executor.cc:603-657 | the chunks written one after the other where their slices begin, even if they run over their slices, cut to the number of valid embeddings; if the factor divides and chunks fill their slices, all valid embeddings in order, and for an encoder for which adjacent ranges can be joined, the encoding of the whole input |
| `DecodeLoop.NoStopTextDelivered` | runtime/core/tasks.cc:402-464 | with restartable sequences and a detector that has processed no token, the text delivered to a candidate comes only from tokens before every occurrence of every stop sequence in its stream |
| `DecodeLoop.DeliveredTextExactly` | runtime/core/tasks.cc:402-464 | with such a detector, without overhang, and when every token has a text of its own, the text delivered is exactly that of the tokens before the stop sequence, or before the longest partial match while decoding goes on |
| `DecodeLoop.StreamingEqualsSynchronous` | runtime/core/tasks.cc:420-464 | from the same start, the texts streamed to a candidate put together are the text that synchronous decoding returns for it |
| `DecodeLoop.StepsBounded` | runtime/core/tasks.cc:75-91 | decoding takes one step, or no more than the token limit leaves room for |
| `DecodeLoop.FirstStopMeans` | runtime/core/tasks.cc:75-91 | the loop ends after the step it should: before it, the tokens are below the limit, and some candidate has not stopped or the benchmark asks for more steps; at it, one of these fails |
| `DecodeLoop.FoundInStream` | runtime/core/tasks.cc:75-91 | for restartable sequences and a detector that has processed no token, a candidate has stopped exactly when some stop sequence occurs in its stream |
| `DecodeLoop.StreamsAreSampled` | runtime/core/tasks.cc:237-302 | each token of a stream is the one sampled from the rows that hold the start and all earlier tokens of the streams, in either sampling mode |
| `DecodeLoop.GrownStep` | runtime/core/tasks.cc:237-302 | the step of the induction: a step that succeeds extends row and stream by the same token |
| `DecodeLoop.DecodeAndSample` | runtime/core/tasks.cc:237-302 | succeeds exactly if there is a token to feed and internal sampling gives one id per row; then each row is extended by the given or the pending token, and the ids are those sampled from these rows, with 0 for negative ones and pending if sampled internally |
| `DecodeLoop.CollectTexts` | runtime/core/tasks.cc:422-450 | the step's texts, with a space for every special space of the tokenizer and all other characters kept, appended to the final texts, and whether there is any |
| `DecodeLoop.FinalPrefill` | runtime/core/tasks.cc:471-485 | the exact error cases; the last prefill after custom sampling keeps the first candidate, with its last sampled id pending, and keeps cache and history in agreement |
| `DecodeLoop.Loop` | runtime/core/tasks.cc:402-464 | terminates; fails only if it is cancelled or a step can fail; otherwise it ends at the step at which decoding has to stop, having delivered the text released until then, with the executor's rows and the last ids those of the streams |
| `DecodeLoop.Decode` | runtime/core/tasks.cc:364-509 | from a detector in any state, decoding ends when it has to, each token is the one sampled after the tokens before it, the text is what is released of these tokens, streaming or not, and the rows left hold the start and all tokens, the last one pending; the reported state says whether the token limit was reached; it fails only if cancelled or if some step can fail |
| `DecodeLoop.DecodeToCallback` | runtime/core/tasks.cc:453-464 | streamed into the message callback, the messages join to the one-shot parse of the text that synchronous decoding returns for the first candidate, which is reported complete |

## Left out

- KvCache.RunModel: is what the compiled model is assumed to do, not what it is proved to do: it writes the entry of every fed token at its position, drops positions beyond the row, and keeps the rest. In the static executor a cache cell stands for all of a position's entry, and a cache row is claimed to hold the history only while it fits.
- StaticExecutor.Executor: the cache buffers are sequences in named maps, so in-place copies between them are modelled on values; the buffers, their pairs and their swapping are objects. Contents after `Reset` are kept but not looked at.
- StaticExecutor.Executor.constructor: the buffers are made here, with one arbitrary value everywhere; creating them from a model is not modelled.
- ReleasedText.ExactlyWhenNothingLost: the if-and-only-if is for restartable sequences; for others the absence of overhang is sufficient, and what the detector misses is not characterised further.
- ReleasedText.ReleasedTextExactly: for detokenizers that give every token a text of its own. With incomplete byte-pair results only the prefix property is claimed, because the queue then counts groups of tokens and the code may withhold, and lose at the stop, more than the stop sequence (`ReleasedText.LostIncompleteExample`).
- DecodeStep.NoOccurrenceReleased: for several stop sequences restartability is a sufficient condition; it is exact for one.
- StopTokens.SetDetectsExactly: sets in which another sequence occurs in a stream on which one is missed are not characterised.
- DecodeLoop.NoStopTextDelivered: for a detector that has processed no token, as all callers pass; one that is in the middle of a match has nothing withheld for it.
- DecodeStep.DecodeOneStep.Run: a detokenizer failure other than an incomplete sequence, on which the code aborts, is not modelled.
- DecodeLoop.Decode: updates are collected and then passed to the callback, so a callback that acts on the engine while decoding is not modelled; scores, constrained decoding and benchmark timing are left out. It runs over the static executor. The special space of the tokenizer is one character, not three bytes.
- DecodeLoop.DecodeToCallback: an error outcome is not passed on to the message callback here; `FenceSplitter.InternalCallback.OnResponse` says what the callback does with it.
- FenceSplitter.InternalCallback.OnResponse: a response after the final one is outside the protocol, and conversion to messages is only known to succeed or fail, depending on the text.
- Sampling.TopKTopPSampling: real numbers instead of floats; the exponential is any positive increasing function with value 1 at 0, and the draw is a parameter. The softmax fallbacks for a vanishing or infinite sum cannot be reached over the reals.
- AudioChunks.Encode: the encoder and the adapter are a function from frame ranges to embeddings; what the code writes past the end of the output is not modelled.
- DynamicExecutor.Executor.RunInPlace: is the assumed contract of the model call; the entry of a token is a fixed function of tensor and token, though a model computes it from the tokens before as well.
- AttentionMask.InitializeAttentionMask: element values are reals; the closed value of float masks is 0.7 times the largest float, without rounding.
- Tensor buffers, locks, environments and failures of the LiteRT runtime; model loading and options.
- Embedding and per-layer embedding lookup, for which prefill and decode differ only in which input buffers are filled.
- Tokenizers, prompt templates, JSON and message conversion: unseen libraries, kept as functions.
- `DeleteTokensIfNeeded` and dropping tokens from the cache: the work is done in code outside the modelled files.
- `Score` and `ComputeLogLikelihood`; `GetTokensUnsafe`; caching of prefill input buffers; waiting for completion.
- Sessions, their task queues and threads.
- Settings, flags, conversions between enumerations and strings, the C interface and command lines: plumbing.
