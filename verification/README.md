# Verified models of the goja host library

A Go library that gives the goja JavaScript engine its host objects: timers, streams, text codecs, fetch,
files, SQLite, a key-value store. Most of it is glue. This project models the parts whose correctness is
not obvious from reading one function, and proves what they are for. `dafny verify dfyconfig.toml` checks
everything.

**Graph copying** (`CloneGraph`, `CloneInvariant`, `StructuredClone`, `CloneIsomorphism`). structuredClone
over a heap of nodes with any sharing and any cycles. The recursion, the `seen` map and the filling loops
are methods of a class; the main results say that a returned copy is a fresh, separate, isomorphic graph,
and that the call throws exactly when something that cannot be cloned is reachable.

**Numbers and ciphers** (`NumberTheory`, `RsaFactors`, `KeyWrap`, `KeyWrapStandard`). Factors of an RSA modulus from square
roots of 1, AES key wrap (sections 2.2.1 and 2.2.2 of RFC 3394) over any block permutation, PKCS #7
padding. `NumberTheory` holds the divisibility facts they need.

**Codecs that carry state** (`Utf8`, `TextDecoder`, `TextStreams`, `StringDecoder`, `SearchParams`). Each is
proved equal to its own whole-input form for every chunking, and is undone by its partner: UTF-8 (RFC
3629), UTF-16 (RFC 2781), base64 (section 4 of RFC 4648), form-urlencoded lists.

**The event loop** (`EventLoop`, `EventLoopRuns`, `EventLoopEffects`, `TaskQueue`). The job table and the reference count over
every run, with the methods that take the steps; the two-buffer task queue as a class that is a plain FIFO
queue; the wake-up channel among any number of threads.

**Other protocols** (`UploadBody`, `ReaderStream`, `FileHandle`, `BulkGet`). Each is a state machine whose
steps are the locked sections, channel operations and calls of the source, run by threads in any
interleaving. Theorems are about every run. Where a section is more than one assignment, a class holds it as
a method that is proved to take exactly that step. Liveness is stated without a scheduler: a measure that every
internal step decreases, and what holds once no internal step is left.

**The lock table and the cache** (`LockManager`, `LruCache`, `SyncBinding`). SQLite's lock levels under the
discipline SQLite keeps, and the byte-bounded cache in front of the key-value store, which no sequence of
calls can tell from the store alone.

## Conventions

A property that is plausible but false of the code is stated as the exact condition under which it holds, and
comes with a concrete run or input where it fails. The condition first, then the run or input:
`EventLoopRuns.TerminateCancels` with `LeakedImmediate` and `ClearedTimerStays`;
`UploadBody.WaitingReadIsServed` with `LoopDiesUnderRead`; `LockSafety.ReservedSees` with `ExclusiveUnreserved`;
`LockSafety.UnlockKeepsEntry` with `IdleCloseLeavesEntry`; `SyncBinding.SlackOfTwoReadings` with `StaleHit`;
`SyncBinding.LateRefill` with `StaleAfterRefill`; `BulkGet.CancelledIsPartial`, which covers all keys and stores;
`StringDecoder.WriteEndsOnHigh` with `TwoHighs`; `SearchParams.ParseUndoesEncode` with `PlusIsLost`;
`KeyWrap.UnpadUndoesPad` with `LongPaddingIsLost`.

Code and documentation disagree in a few places; the code is followed. `Terminate` promises that all active
timeouts and intervals are cleared and later submissions fail, but an immediate set by a callback it drains
stays counted, and a timer cleared after it went off can stay in the table. The URL Standard escapes `+` in
form-urlencoded output; the parameter table does not. SQLite's reserved-lock check is meant to see EXCLUSIVE
holders as well; `reserved` sees them only if they passed through RESERVED.

The value `Start` or `Initial` of a module is the state a constructor leaves; `Leads(s, xs, t)` says that the
steps xs, each enabled when it is taken, lead from s to t.

## Model

| member | source | states |
|---|---|---|
| StructuredClone.Cloner.CloneValue | structuredclone/structuredclone.go:51-98 | dispatch and `seen`: afterwards everything reachable is copied, or a reachable unsupported value was found; the source is unchanged; recursion ends because nodes not in `seen` run out |
| StructuredClone.Cloner.CloneArray | structuredclone/structuredclone.go:120-129 | the copy registered before descending ends up as the array with every element copied |
| StructuredClone.Cloner.ClonePlainObject | structuredclone/structuredclone.go:131-138 | the same for own enumerable properties, in order |
| StructuredClone.Cloner.CloneMap | structuredclone/structuredclone.go:140-170 | every entry arrives and none overwrites another: the copies of distinct keys are distinct |
| StructuredClone.Cloner.CloneSet | structuredclone/structuredclone.go:172-197 | every member arrives and none is lost |
| StructuredClone.Cloner.CloneDate | structuredclone/structuredclone.go:199-208 | a fresh node with the same time, registered in `seen` |
| StructuredClone.Cloner.CloneRegExp | structuredclone/structuredclone.go:210-214 | a fresh node with the same source and flags |
| StructuredClone.Cloner.CloneArrayBuffer | structuredclone/structuredclone.go:216-225 | a fresh buffer that holds the same bytes; a detached one throws |
| StructuredClone.Cloner.CloneView | structuredclone/structuredclone.go:227-244 | a fresh view with the same offset and length over the copy of its buffer, shared if the buffer is shared |
| StructuredClone.StructuredClone | structuredclone/structuredclone.go:42-49 | terminates on every finite graph; succeeds iff nothing unsupported is reachable; leaves the source alone; a result is a copy along an injective map defined exactly on the reachable nodes, each copied field by field |
| StructuredClone.ClonedEverything | structuredclone/structuredclone.go:51-98 | what the recursion keeps, at the outermost call, is the whole reachable graph copied |
| StructuredClone.EveryNodeIsCopied | structuredclone/structuredclone.go:120-244 | every reachable node arrives with its kind, its data (bytes, time, source and flags, view kind, offset and length, property names) and, index by index, the copies of its children |
| CloneSteps.OutcomeCopies | structuredclone/structuredclone.go:120-244 | so does every node the recursion has finished |
| CloneGraph.SupportedKinds | structuredclone/structuredclone.go:79-97 | what can be cloned, by name: the rest throws |
| CloneIsomorphism.CopyIsIsomorphic | structuredclone/structuredclone.go:51-98 | what the copy reaches is exactly the image of what the source value reaches |
| CloneIsomorphism.PathIsCopied | structuredclone/structuredclone.go:74-98 | every path from the source value is a path from the copy |
| CloneIsomorphism.PathOfCopy | structuredclone/structuredclone.go:74-98 | every path from the copy comes from one in the source |
| CloneIsomorphism.CopyIsSeparate | structuredclone/structuredclone.go:51-98 | no node of the source is reachable from the copy |
| CloneIsomorphism.SharingIsKept | structuredclone/structuredclone.go:74-76 | two reachable values are the same iff their copies are |
| CloneIsomorphism.CopyIsWellFormed | structuredclone/structuredclone.go:140-244 | copied Maps and Sets keep distinct keys, so their sizes, and copied views lie within copied buffers |
| RsaFactors.TryBase | crypto/key_io.go:744-786 | returns a factorization n = p * q with 1 < p <= q < n, and does so iff the base shares a factor with n or some g^(r * 2^i) mod n is a square root of 1 other than 1 and n - 1 |
| RsaFactors.SplitsByPowers | crypto/key_io.go:744-786 | the same of the squarings and of the powers |
| RsaFactors.BaseFails | crypto/key_io.go:755-785 | for a working key a base coprime to n fails iff its powers reach 1 at once or by way of n - 1 |
| RsaFactors.RecoverFactors | crypto/key_io.go:718-813 | each error in exactly its case, the random source's iff a draw fails before any base tried gives factors; factors iff one of the bases tried does; what is returned is a factorization |
| RsaFactors.SquaresArePowers | crypto/key_io.go:755-783 | the loop's y is g^(r * 2^i) mod n |
| RsaFactors.TellingRootSplits | crypto/key_io.go:764-778 | at such a root the gcd is a proper factor, so the guards after it never reject |
| RsaFactors.OddPartOf | crypto/key_io.go:732-737 | halving ends with r odd and r * 2^t = d * e - 1 |
| RsaFactors.FactorsAreThePrimes | crypto/key_io.go:718-813 | for n a product of two primes, the factors returned are those primes in order |
| KeyWrap.XorT | crypto/legacy_cipher_helpers.go:117-122 | xors the big-endian counter into the first eight bytes in place and touches nothing else |
| KeyWrap.AesKeyWrap | crypto/legacy_cipher_helpers.go:39-74 | the nested register loops compute the wrapping function, errors included |
| KeyWrap.AesKeyUnwrap | crypto/legacy_cipher_helpers.go:76-115 | the loops run backwards compute the unwrapping function, errors included |
| KeyWrapStandard.WrappedIsStandard | crypto/legacy_cipher_helpers.go:47-74 | wrapping is the shifting formulation of section 2.2.1 of RFC 3394: counters 1 to 6n, eight bytes A6 to start with, A = MSB ^ t |
| KeyWrapStandard.WoundIsShifted | crypto/legacy_cipher_helpers.go:56-67 | step by step: the indexed registers are the shifted ones, turned |
| KeyWrapStandard.XorIsXorCounter | crypto/legacy_cipher_helpers.go:117-122 | xorT takes the counter as eight bytes, most significant first |
| KeyWrapStandard.WrappingSucceeds | crypto/legacy_cipher_helpers.go:39-46 | it fails for a bad length or key only |
| KeyWrapStandard.IdentityWraps | crypto/legacy_cipher_helpers.go:47-74 | with the identity as block cipher: all counters xored into eight bytes A6, then the plaintext |
| KeyWrapStandard.IdentityWrapsTwoBlocks | crypto/legacy_cipher_helpers.go:47-74 | for two blocks: A6 seven times, then AA |
| KeyWrap.WindThenUnwind | crypto/legacy_cipher_helpers.go:60-106 | running all steps back undoes running them forward |
| KeyWrap.UnwindThenWind | crypto/legacy_cipher_helpers.go:60-106 | and conversely |
| KeyWrap.UnwrapUndoesWrap | crypto/legacy_cipher_helpers.go:39-115 | unwrapping a wrapping gives the plaintext, for any permutation and every plaintext of two or more blocks |
| KeyWrap.WrapUndoesUnwrap | crypto/legacy_cipher_helpers.go:39-115 | a ciphertext that unwraps is the wrapping of the result |
| KeyWrap.UnwrapAcceptsExactlyWrappings | crypto/legacy_cipher_helpers.go:76-115 | unwrapping succeeds iff the ciphertext is a wrapping of something |
| KeyWrap.Pkcs7Pad | crypto/legacy_cipher_helpers.go:11-21 | whole blocks that begin with the data; one to blockSize bytes more, each of which says how many, modulo 256 |
| KeyWrap.Pkcs7Unpad | crypto/legacy_cipher_helpers.go:23-37 | the checks and the padding scan |
| KeyWrap.UnpadUndoesPad | crypto/legacy_cipher_helpers.go:11-37 | the round trip holds iff the padding length fits a byte |
| KeyWrap.LongPaddingIsLost | crypto/legacy_cipher_helpers.go:11-37 | a block size of 256, at which padding does not unpad |
| KeyWrap.PadUndoesUnpad | crypto/legacy_cipher_helpers.go:11-37 | what unpads is the padding of the result |
| TextDecoder.DecodeChunk | streams/text.go:130-166 | reads the chunk piece by piece: a well-formed sequence as its rune, a byte at which none starts as U+FFFD, a sequence cut off at the end as one U+FFFD, or left over; in fatal mode malformed iff a piece is not well-formed |
| TextDecoder.ChunkReadsItsData | streams/text.go:130-166 | the pieces, and that fatal mode fails iff one is not well-formed |
| TextDecoder.NoOtherReading | streams/text.go:130-166 | no other text can be read that way |
| TextDecoder.Decoder.DecodeUTF8 | streams/text.go:22-66 | pending bytes, byte order mark and chunk decoding in one call |
| TextDecoder.Decoder.Decode | streams/text_streams.js:54-73 | output and new state of one call; a throwing call leaves the decoder as it was |
| TextDecoder.DecodeInTwo | streams/text.go:130-166 | a chunk boundary does not change the decoding, malformed or not |
| TextDecoder.LeftoverIsShort | streams/text.go:143-150 | at most three bytes are left over, none at the end |
| TextDecoder.DecodesItsEncoding | streams/text.go:130-166 | every encoded text decodes to itself |
| TextDecoder.FatalAcceptsExactlyUtf8 | streams/text.go:130-166 | fatal mode accepts exactly the encodings of texts |
| TextDecoder.StreamingIsOneShot | streams/text_streams.js:44-74 | for every chunking the texts add up to the one-shot decoding, mark stripped iff the whole input starts with it and stripping is on, and the run fails iff the one-shot decoding fails |
| TextDecoder.StreamingReadsItsInput | streams/text_streams.js:44-74 | so for every chunking the text of a run that is not fatal reads the whole input piece by piece, without EF BB BF at its front unless that is to be kept |
| TextDecoder.PendingIsShort | streams/text_streams.js:54-73 | never more than three bytes are pending |
| Utf8.EncodeKeepsOrder | streams/text.go:18-20 | the encoding keeps the order of code points, so with the next two there is no other |
| Utf8.EncodeDecodes | streams/text.go:18-20 | every encoding is well-formed and decodes |
| Utf8.DecodeEncodes | streams/text.go:130-166 | every well-formed sequence is an encoding |
| Utf8.EncodingExamples | streams/text.go:18-20 | the examples of section 7 of RFC 3629 |
| Utf16.EncodingExample | streams/text_streams.js:80-93 | the example of section 2.2 of RFC 2781 |
| TextStreams.EncoderStream.Transform | streams/text_streams.js:80-93 | holds back exactly a trailing high surrogate; what is out is the encoding of all but that |
| TextStreams.EncoderStream.Flush | streams/text_streams.js:94-100 | in the end the bytes are the encoding of everything written |
| TextStreams.DecoderStream.Transform | streams/text_streams.js:119-133 | enqueues the text of one streaming call |
| TextStreams.DecoderStream.Flush | streams/text_streams.js:134-149 | enqueues the text of the final call |
| TextStreams.PipelineRestores | streams/text_streams.js:76-146 | any chunking through the encoder, any re-chunking of the bytes through a decoder with ignoreBOM: the scalar values of the string |
| TextStreams.PipelineKeepsUnits | streams/text_streams.js:76-146 | unit by unit: a lone surrogate became U+FFFD, every other unit is in its place, no pair is broken |
| TextStreams.EncodeInto | streams/text_streams.js:21-41 | writes the encoding of the prefix read, stops only when the next character does not fit, splits no pair, touches nothing beyond |
| EventLoopRuns.EventLoop.RemoveJob | eventloop/eventloop.go:828-840 | the swap-removal from the table, in place |
| EventLoopRuns.EventLoop.Schedule | eventloop/eventloop.go:336-371 | setTimeout and setInterval: counted, started, at the end of the table |
| EventLoopRuns.EventLoop.SetImmediate | eventloop/eventloop.go:381-400 | counted whether or not the task is accepted |
| EventLoopRuns.EventLoop.SetTimer | eventloop/eventloop.go:410-421 | SetTimeout and SetInterval from Go: nothing on a terminated loop |
| EventLoopRuns.EventLoop.AddAuxJob | eventloop/eventloop.go:685-695 | accepted unless terminated, and then the wake-up channel holds its token |
| EventLoopRuns.EventLoop.Start | eventloop/eventloop.go:412-417 | the task of SetTimeout: starts, counts and files the job |
| EventLoopRuns.EventLoop.End | eventloop/eventloop.go:805-849 | the part all clears and runs share: cancelled, and uncounted if ref'd |
| EventLoopRuns.EventLoop.Clear | eventloop/eventloop.go:805-849 | the three clears; what they are worth is EventLoopEffects.ClearIsFinal |
| EventLoopRuns.EventLoop.SetJobRef | eventloop/eventloop.go:905-916 | ref and unref move the count by one, once, never for a finished job, and wake the loop |
| EventLoopRuns.EventLoop.DoTimeout | eventloop/eventloop.go:778-787 | leaves the table, and runs unless cancelled |
| EventLoopRuns.EventLoop.DoInterval | eventloop/eventloop.go:789-793 | runs unless cancelled |
| EventLoopRuns.EventLoop.DoImmediate | eventloop/eventloop.go:795-803 | runs unless cancelled, and is over |
| EventLoopRuns.EventLoop.RunOldest | eventloop/eventloop.go:611-621 | one queued task: it finds its job started and of its kind, and keeps the invariant |
| EventLoopRuns.EventLoop.CancelAll | eventloop/eventloop.go:565-577 | the loop of Terminate: nothing uncancelled stays, the count is that of refused immediates |
| EventLoopRuns.StepKeeps | eventloop/eventloop.go:336-458 | every operation, from the loop or another goroutine, in any order, keeps table, count, queue and log in order, and never follows a stale index |
| EventLoopRuns.TableAndCountAreExact | eventloop/eventloop.go:336-371 | in every run jobs[i].idx = i, jobs outside have -1, and jobCount is the number of live ref'd jobs plus one in the background |
| EventLoopRuns.CallbacksAreOrderly | eventloop/eventloop.go:778-849 | in every run nothing runs after it is cleared and no timeout or immediate runs twice |
| EventLoopEffects.ClearIsFinal | eventloop/eventloop.go:805-849 | in every run: from the operation that clears a job on, from JavaScript or from Go, it never runs, does not count, and an interval is out of the table for good |
| EventLoopEffects.ClearEnds | eventloop/eventloop.go:805-849 | a clear takes the job out of the count, and an interval or a timer that has not gone off out of the table |
| EventLoopEffects.LiveJobRuns | eventloop/eventloop.go:778-803 | in every run: the task of a timeout, interval or immediate that nobody cleared, ran or cancelled runs it, exactly once |
| EventLoopEffects.TaskRunsItsJob | eventloop/eventloop.go:778-803 | a task runs its job iff it is not over, and nothing else |
| EventLoopEffects.StepSpares | eventloop/eventloop.go:336-458 | only the end of a job cancels it, and nothing revives it |
| EventLoopEffects.SettingTakesEffect | eventloop/eventloop.go:336-458 | what is set counts at once, or has its task queued |
| EventLoopEffects.RegisteringTakesEffect | eventloop/eventloop.go:412-417 | the task of SetTimeout starts, counts and files its job |
| EventLoopEffects.RefTakesEffect | eventloop/eventloop.go:905-916 | ref and unref decide whether a job that is not over counts |
| EventLoopEffects.ClocksTakeEffect | eventloop/eventloop.go:739-766 | a timer that goes off and a ticker that ticks queue their task, unless terminated |
| EventLoopRuns.CallbacksAreComing | eventloop/eventloop.go:739-776 | in every run a live timeout has its timer or its task, and a live immediate its task, unless the loop is terminated or refused it |
| EventLoopRuns.TerminateCancels | eventloop/eventloop.go:546-600 | after Terminate the table holds exactly the jobs cancelled before, and the count is 0 iff no ref'd uncleared immediate was refused |
| EventLoopInvariant.CancelFromKeeps | eventloop/eventloop.go:565-577 | the loop cancels and removes exactly the jobs still to run, although removal reorders the table under it |
| EventLoopRuns.LeakedImmediate | eventloop/eventloop.go:396-397 | a run that ends terminated with jobCount 1 and nothing left to run |
| EventLoopRuns.ClearedTimerStays | eventloop/eventloop.go:805-815 | a run after which a cleared timer is still in the table of a terminated loop |
| TaskQueue.Queue.AddAuxJob | eventloop/eventloop.go:685-695 | appended in place or in a larger array, to the queue alone, and the loop is woken; refused when terminated |
| TaskQueue.Queue.RunJob | eventloop/eventloop.go:616-619 | a task runs once, what it adds goes to the other buffer, and its slot is cleared |
| TaskQueue.Queue.RunAux | eventloop/eventloop.go:611-621 | one round runs exactly what was accepted before it, in order; the buffers stay distinct and hold nothing else |
| TaskQueue.Queue.RunRounds | eventloop/eventloop.go:642-663 | any number of rounds is that many rounds of a plain queue |
| WakeUp.EveryRunIsFifo | eventloop/eventloop.go:611-695 | among any threads: tasks run in acceptance order, none lost or doubled; an unseen non-empty queue of a running loop has a token, a signaller, or a swap coming; Terminate drains |
| WakeUp.AcceptedIsAdded | eventloop/eventloop.go:685-695 | what counts as accepted is what was added in the run, all of it |
| WakeUp.StepKeeps | eventloop/eventloop.go:642-695 | every step keeps this, for requests to stop as well |
| WakeUp.QuietMeansDone | eventloop/eventloop.go:519-540 | with no step left the loop is off, or waits with everything run; a loop asked to stop is off |
| WakeUp.InternalRunsAreShort | eventloop/eventloop.go:642-663 | such a state is reached in a bounded number of steps |
| UploadBody.OnePermission | fetch/upload.go:74-111 | at most one of outstanding read, scheduled read, item in the channel, current item, loop thread at work; enqueue never blocks |
| UploadBody.ReadReturnsTheStream | fetch/upload.go:188-226 | Read gives a prefix of the stream's bytes, all of them before io.EOF, and loses none unless aborted |
| UploadBody.ReadReportsWhatHappened | fetch/upload.go:209-224 | in every run Read reports the end only if the stream said it is done, an error only if it failed, a closed pipe only if aborted |
| UploadBody.ReadReportsItsItem | fetch/upload.go:209-224 | a Read with an item reports the end iff the stream said done, the error iff it failed, and else hands out the next bytes, as many as are there and fit |
| UploadBody.ChunksAreTheAnswers | fetch/upload.go:74-111 | the stream's bytes are those of its answers |
| UploadBody.LateAbortDoesNothing | fetch/upload.go:252-264 | an abort that finds the body finished uses up abortOnce and closes nothing, then or later |
| UploadBody.WaitingReadIsServed | fetch/upload.go:196-207 | a waiting Read has something coming, except iff the loop died owing an answer and nobody closed or aborted |
| UploadBody.CloseEndsTheWait | fetch/upload.go:287-301 | Close ends exactly that wait |
| UploadBody.LoopDiesUnderRead | fetch/upload.go:196-207 | a run into that wait |
| UploadBody.InternalRunsAreShort | fetch/upload.go:151-250 | between calls and answers no run is longer than 25 steps |
| UploadBody.InternalStepsEnd | fetch/upload.go:151-250 | the measure that bounds it |
| UploadBody.StepKeeps | fetch/upload.go:74-301 | every step of every thread keeps the invariant |
| UploadBody.Body.FinishOnLoop | fetch/upload.go:158-180 | the locked section of finishOnLoop and failChunkOnLoop |
| UploadBody.Body.Enqueue | fetch/upload.go:151-156 | the channel is empty; only an aborted body drops the item |
| UploadBody.Body.UseCurrent | fetch/upload.go:209-224 | what Read returns from a current item, and when it clears it; by what the stream did, see ReadReportsItsItem |
| UploadBody.Body.ClearCurrent | fetch/upload.go:228-233 | clears, and schedules iff not finished |
| UploadBody.Body.SetFinished | fetch/upload.go:243-263 | the bodies of abortOnce: an abort that comes too late uses it up without closing the channel |
| UploadBody.Body.CloseAborted | fetch/upload.go:243-263 | the channel is closed at most once |
| ReaderStream.AtMostOnceInOrder | streams/reader.go:212-342 | at most one read, one close, one hook; enqueued bytes are a prefix of the bytes read; close comes after all of them, at the end of the input |
| ReaderStream.SettledExactlyOnce | streams/reader.go:127-163 | when nothing is left to do, the reader is closed once and one hook has run once iff the stream settled; the off-loop hook iff a pull was abandoned; a pull waits only for a read |
| ReaderStream.ControllerIsToldRightly | streams/reader.go:284-324 | when nothing is left to do: closed iff a read that met the end was delivered and its close did not fail; in error iff a failed read or close was delivered or Error was called, before the stream settled otherwise; settled iff one of these, a cancel, or an abandoned read on a dead loop; read are the bytes the reader gave |
| ReaderStream.InternalRunsAreShort | streams/reader.go:261-342 | a run of internal steps is bounded by the measure at its start |
| ReaderStream.QuietIsReached | streams/reader.go:261-342 | internal steps lead from every state to one in which none is left |
| ReaderStream.InternalStepsEnd | streams/reader.go:261-342 | the measure that counts them down |
| ReaderStream.StepKeeps | streams/reader.go:127-342 | every step of pull, read, deliver, cancel, Error and abandon keeps the invariant; settled stays settled |
| ReaderStream.Stream.Pull | streams/reader.go:212-229 | starts a read iff not settled |
| ReaderStream.Stream.End | streams/reader.go:231-243 | the locked section of cancel and Error |
| ReaderStream.Stream.Deliver | streams/reader.go:284-300 | the locked section of deliver |
| ReaderStream.Stream.Abandon | streams/reader.go:328-337 | the locked section of abandon |
| LockTable.File.Lock | sqlite/vfs.go:163-169 | level and table change together, as the request says |
| LockTable.File.Unlock | sqlite/vfs.go:171-177 | level and table change together |
| LockTable.File.Close | sqlite/vfs.go:195-204 | gives up every lock |
| LockTable.File.CheckReservedLock | sqlite/vfs.go:179-181 | in a consistent table: true if an open file of the database holds RESERVED, and only if one holds RESERVED or EXCLUSIVE |
| LockTable.ReservedByLevels | sqlite/vfs.go:351-355 | the same of reserved(), by the recorded levels |
| LockTable.LockManager.LockFile | sqlite/vfs.go:279-322 | the new table and the outcome |
| LockTable.LockManager.RequestState | sqlite/vfs.go:286-320 | the switch over the levels |
| LockTable.LockManager.SharedByOther | sqlite/vfs.go:307-311 | the loop over shared owners finds one iff another file shares |
| LockTable.LockManager.UnlockFile | sqlite/vfs.go:324-349 | the new table; an entry nobody owns is deleted |
| LockSafety.HoldersAreCompatible | sqlite/vfs.go:279-349 | in every disciplined run an EXCLUSIVE holder excludes every other and at most one file is RESERVED or above |
| LockSafety.LevelsAgree | sqlite/vfs.go:163-177 | in every disciplined run a file's level is the one the owner fields give it |
| LockSafety.GrantedIffCompatible | sqlite/vfs.go:279-322 | granted iff the other levels are compatible, EXCLUSIVE iff all others are at NONE; a refusal changes nothing |
| LockSafety.StepKeeps | sqlite/vfs.go:279-349 | lock, unlock, open and close keep the invariant |
| LockSafety.NamesAreIndependent | sqlite/vfs.go:267-277 | a lock on one database leaves the others alone |
| LockSafety.UnlockUndoesLock | sqlite/vfs.go:324-349 | unlocking to NONE restores the owners as they were before the lock |
| LockSafety.UnlockKeepsEntry | sqlite/vfs.go:324-349 | an entry stays iff a lock is still held or the call was idle |
| LockSafety.IdleCloseLeavesEntry | sqlite/vfs.go:195-204 | closing a file that holds nothing leaves an entry |
| LockSafety.ReservedSees | sqlite/vfs.go:351-355 | in every disciplined run: true iff a file holds RESERVED, or holds EXCLUSIVE granted to it while it held RESERVED |
| LockSafety.ExclusiveSeenIffReserved | sqlite/vfs.go:303-316 | a file granted EXCLUSIVE is seen iff it held RESERVED before the call |
| LockSafety.ExclusiveIsUndisturbed | sqlite/vfs.go:279-349 | until it unlocks or closes, nothing others do changes that |
| LockSafety.ExclusiveUnreserved | sqlite/vfs.go:303-316 | an EXCLUSIVE holder it misses |
| FileHandle.ClosedOnceAndNeverInUse | fs/core.go:515-561 | for any threads: closed at most once, never during an operation, one operation at a time |
| FileHandle.LateOperationsFail | fs/core.go:528-561 | an operation overlapping or following the request never reports its own result |
| FileHandle.TimelyOperationsSucceed | fs/core.go:528-561 | in every run an operation reports its own result iff no close was requested before its finishing section, and then the result it had; else ErrClosedHandle |
| FileHandle.RequestedIffAsked | fs/core.go:563-581 | in every run a close is requested iff some thread went through the section that asks for it |
| FileHandle.ExactlyOneHasDuty | fs/core.go:563-591 | requested and not done iff some thread, and then exactly one, has to close; it can go on; no closeAndWait has returned |
| FileHandle.DutyEndsInRuns | fs/core.go:528-581 | in every run the close is done after at most four steps of the thread that has the duty, whatever the others do |
| FileHandle.DutyEnds | fs/core.go:528-581 | its steps bring the close nearer and no other thread's step takes the duty away |
| FileHandle.WaitersAreServed | fs/core.go:583-591 | a waiting closeAndWait goes on iff the close is done, and until then another thread has the duty: it cannot hang |
| FileHandle.WaitReturnsTheError | fs/core.go:583-591 | in every run whoever returned from closeAndWait returned the error of the one close of the file in that run |
| FileHandle.CloseReturns | fs/core.go:563-581 | in every run a plain Close returns the error of its own close, nil if the operation in progress closes, and the error of an earlier close once that is done |
| FileHandle.StepKeeps | fs/core.go:515-591 | every step of every thread keeps the invariant |
| FileHandle.Handle.BeginOperation | fs/core.go:515-526 | refused iff a close is requested, giving the mutex back |
| FileHandle.Handle.FinishOperation | fs/core.go:528-543 | takes the duty to close iff nobody has |
| FileHandle.Handle.CompleteClose | fs/core.go:545-550 | the channel is not closed twice |
| FileHandle.Handle.RequestClose | fs/core.go:563-581 | who closes: this call, the operation in progress, or an earlier one |
| CacheModel.LruCache.Get | cloudflarekv/cache.go:47-64 | hit, miss or expired, with the move to the front or the removal; map, list, size and the order of last use stay in step |
| CacheModel.LruCache.Put | cloudflarekv/cache.go:66-97 | the recency-ordered sequence with the new entry in front, trimmed from the back; the order of last use is kept |
| CacheModel.LruCache.MakeEntry | cloudflarekv/cache.go:67-81 | the three early returns and the ttl, up to the lock |
| CacheModel.LruCache.Insert | cloudflarekv/cache.go:82-97 | replaces, pushes to the front and evicts |
| CacheModel.LruCache.Evict | cloudflarekv/cache.go:94-96 | ends within capacity without reaching the entry in front |
| CacheModel.LruCache.Remove | cloudflarekv/cache.go:110-118 | map, list and size stay in step |
| CacheModel.LruCache.Delete | cloudflarekv/cache.go:99-108 | the key is gone, nothing else |
| CacheModel.TrimIsLongestFit | cloudflarekv/cache.go:94-96 | eviction keeps the longest front part that fits |
| CacheModel.PutKeepsTheNewest | cloudflarekv/cache.go:66-97 | after a put: the new entry, then the most recently used others as far as they fit |
| CacheModel.PutIsServed | cloudflarekv/cache.go:47-97 | a record put is what a get finds exactly as long as the ttl and the record last; a put that cannot be served leaves the cache alone |
| CacheModel.HitsWhatIsThere | cloudflarekv/cache.go:47-64 | a hit iff there is an entry of the key that has not expired |
| CacheModel.OthersAreServed | cloudflarekv/cache.go:66-108 | a put or a delete touches other keys only to evict them |
| CacheModel.GetByRecency | cloudflarekv/cache.go:47-64 | a hit makes its key the latest, a miss changes no order; kept by the cache through every call |
| CacheModel.PutByRecency | cloudflarekv/cache.go:66-97 | the same for a put, so eviction from the back takes the least recently used |
| CacheModel.WithoutByRecency | cloudflarekv/cache.go:110-118 | removing an entry keeps the order of the rest |
| SyncBinding.Binder.Get | cloudflarekv/bridge.go:340-376 | getRecordCached under the synchronous get |
| SyncBinding.Binder.Put | cloudflarekv/bridge.go:427-462 | store first, then the cache; a failed write touches neither |
| SyncBinding.Binder.Delete | cloudflarekv/bridge.go:464-476 | the same |
| SyncBinding.StepAgrees | cloudflarekv/cache.go:13-22 | one call answers what the store would, and keeps the cache coherent and bounded; only a hit hides a failing store |
| SyncBinding.CacheIsInvisible | cloudflarekv/bridge.go:340-476 | every sequence of calls gets exactly the answers of the store without a cache |
| SyncBinding.SecondGetNeedsNoStore | cloudflarekv/cache.go:13-22 | after a get that asked the store the next one is answered without it exactly while the ttl and the record last, if there is a cache and the answer fits |
| SyncBinding.SlackOfTwoReadings | cloudflarekv/cache.go:66-97 | with two clock readings in put, exactly when every hit is good, and by how much one can be late |
| SyncBinding.StaleHit | cloudflarekv/cache.go:66-97 | a record served two ticks after it expired |
| SyncBinding.LateRefill | cloudflarekv/stream_bridge.go:78-112 | a late refill by the asynchronous get is harmless iff it makes no entry or the store still says the same |
| SyncBinding.StaleAfterRefill | cloudflarekv/stream_bridge.go:78-112 | get reads, put invalidates, the refill lands, and the next get answers with the old record |
| SyncBinding.BulkBinder.Split | cloudflarekv/bulk.go:94-108 | cached answers are the store's; the misses are exactly the unknown keys, each once |
| SyncBinding.BulkBinder.FillMisses | cloudflarekv/bulk.go:118-124 | the loop that fills the cache with the store's answers and adds them to the cached ones |
| SyncBinding.BulkAnswers | cloudflarekv/bulk.go:93-124 | a bulk get answers each key as the store stood when the key was looked up in the cache, or, if it was missed, when the store was asked |
| SyncBinding.FillExact | cloudflarekv/bulk.go:118-124 | whatever came in between, filling leaves the cache coherent iff each entry it made that is still there says what the store says by then |
| SyncBinding.BulkGetKeepsCoherence | cloudflarekv/bulk.go:110-124 | so it does when no missed key is written between the store's answer and the fill, whatever other calls there are |
| CachingReader.Reader.Read | cloudflarekv/cache.go:143-161 | the cache gets a body once, complete, and iff it was read to its end, fits, and was not declared too large |
| CachingReader.CompleteGrows | cloudflarekv/cache.go:143-161 | a body is complete with a read iff it ends there, fits and was not complete before |
| BulkGet.OneWorkerPerKey | cloudflarekv/bulk.go:50-68 | in every run each position is handed over exactly once, no worker but that one ever has it, and in the end it is finished or failed |
| BulkGet.ResultIsTheFoundKeys | cloudflarekv/bulk.go:32-82 | a run without error returns exactly the found keys, all of them unless the caller's context was cancelled |
| BulkGet.NoFailureNoError | cloudflarekv/bulk.go:54-61 | no failing get, no error |
| BulkGet.NeverStuck | cloudflarekv/bulk.go:69-82 | no reachable state leaves a send or a receive stuck |
| BulkGet.StepsRunOut | cloudflarekv/bulk.go:50-82 | producer and workers all finish, whatever fails |
| BulkGet.UncancelledIsComplete | cloudflarekv/bulk.go:32-82 | without a cancelled context an error-free run returns exactly the found keys |
| BulkGet.CancelledIsPartial | cloudflarekv/bulk.go:69-82 | with one, for all keys and stores: some error-free run returns something else iff any key is found at all |
| StringDecoder.Decoder.DecodePendingUtf8 | string_decoder/module.go:130-152 | the rune loop |
| StringDecoder.Decoder.DecodePendingUcs2 | string_decoder/module.go:154-173 | whole units, a high surrogate at the end held back |
| StringDecoder.Decoder.DecodePendingBase64 | string_decoder/module.go:175-187 | whole groups of three |
| StringDecoder.Decoder.Write | string_decoder/module.go:60-67 | decodes what was pending and the data, keeps what is incomplete |
| StringDecoder.Decoder.End | string_decoder/module.go:69-84 | decodes everything and starts afresh |
| StringDecoder.DecodeChunks | string_decoder/module.go:60-84 | a decoder fed any chunks puts out the whole-input decoding |
| StringDecoder.ChunkingDoesNotMatter | string_decoder/module.go:60-84 | for utf8, utf16le and base64 and every chunking |
| StringDecoder.FlushAddsOneError | string_decoder/module.go:132-140 | an incomplete tail of at most three bytes gives one U+FFFD |
| StringDecoder.ScanUndoesEncode | string_decoder/module.go:130-152 | encoded text comes back |
| StringDecoder.ScanReadsItsData | string_decoder/module.go:130-152 | the output reads the bytes piece by piece: a well-formed sequence as its rune, a byte at which none starts as U+FFFD, a start of one at the end as one U+FFFD |
| StringDecoder.CutOffIsAStart | string_decoder/module.go:136-141 | what waits for more is exactly what a well-formed sequence can still come of |
| StringDecoder.EndGivesAllUnits | string_decoder/module.go:154-173 | at the end every whole unit comes out, and a byte over is dropped |
| StringDecoder.WriteEndsOnHigh | string_decoder/module.go:154-162 | a write ends on a high surrogate iff the last two whole units are both high |
| StringDecoder.NoPairIsSplit | string_decoder/module.go:154-173 | no write splits a surrogate pair, whatever follows |
| StringDecoder.TwoHighs | string_decoder/module.go:154-162 | an input whose write ends on a high surrogate |
| StringDecoder.Base64Streams | string_decoder/module.go:175-187 | no write puts out padding, and the outputs decode to the whole input |
| Base64.DecodedUndoesEncoded | string_decoder/module.go:180 | base64 decoding undoes encoding |
| Base64.PaddingAtTheEnd | string_decoder/module.go:180 | padding in the last places only, as many as the length asks for |
| Base64.EncodingExamples | string_decoder/module.go:180 | test vectors of section 10 of RFC 4648 |
| Escape.EscapeString | url/escape.go:55-90 | both passes and the early return compute the escaping |
| Escape.UnescapeSearchParam | url/escape.go:92-134 | both passes and the early return compute the unescaping |
| Escape.UnescapeUndoesEscape | url/escape.go:55-134 | unescaping undoes escaping, but a plus sign comes back as a space |
| Escape.EscapedIsClean | url/escape.go:16-25 | an escaped string holds no delimiter |
| Escape.EscapedByteIs | url/escape.go:77-87 | a byte becomes itself, a plus sign, or a percent sign and its two digits in upper case |
| Escape.PercentsHaveDigits | url/escape.go:82-84 | in an escaped string every percent sign has its two upper-case digits |
| Escape.EscapingExample | url/escape.go:55-90 | a space, a letter, an ampersand, a letter of two bytes |
| Escape.UnescapedFront | url/escape.go:119-132 | what any string is unescaped to, a percent sign without its digits included |
| Escape.DigitValues | url/escape.go:31-53 | what is a hex digit, and of what value |
| SearchParams.Encode | url/nodeurl.go:43-52 | the printing loop |
| SearchParams.ParseSearchQuery | url/nodeurl.go:127-148 | the parsing loop, empty pieces and missing values included |
| SearchParams.QueryParses | url/nodeurl.go:127-148 | what any query parses to: the question mark dropped, empty pieces skipped, one parameter for each other |
| SearchParams.PieceParses | url/nodeurl.go:138-144 | a piece is split at its first equals sign, or has no value |
| SearchParams.ParseUndoesEncode | url/nodeurl.go:43-148 | parsing what was printed gives the list with each plus sign a space, so the list itself iff there is none, and printing that gives the same query |
| SearchParams.PlusIsLost | url/escape.go:19 | a value that does not come back |
| SearchParams.EncodedIsInjective | url/nodeurl.go:43-52 | lists with the same query differ in plus signs against spaces at most |

## Left out

- Goja: values, promises, coercions, module registration and argument checks; a callback is the steps that follow it. A call of structuredClone without an argument, holes, accessors, prototypes and `__proto__` keys are not in the graph.
- Job objects of the event loop are records in a map from handle to record, and lock states records in a map from name to record: aliasing of the Go pointers is not captured.
- UploadBody, ReaderStream, FileHandle, BulkGet and WakeUp are state machines over values, because their threads interleave between steps; the classes beside the first three show each locked section as code that takes its step. Goroutines of BulkGet have no such class.
- EventLoop: delays are not modelled; a timer may expire and a ticker tick at any moment. The workers' WaitGroup is not modelled, so the model allows a ticker to notice its stop later than the code does. Nothing sends on jobChan; receiving from it is a step that changes nothing.
- RsaFactors.RecoverFactors: does not state how likely a random base is to reveal a factor, only what is returned when one does. Int-sized exponents are unbounded.
- KeyWrap: the AES block, the triple DES key and random values are parameters; the block is any permutation.
- TextDecoder: a truncated tail ends as one U+FFFD even if its later bytes are ASCII, as in the code; the Encoding Standard's decoder is not the reference.
- StringDecoder: ascii, latin1 and hex keep no state, and text and fillLast are end by another name. Code points and units are numbers; the conversion to engine strings is not modelled.
- UploadBody.CloseEndsTheWait: cancelling and releasing the JavaScript reader changes no state of the protocol and is not a step.
- ReaderStream: assumes no second pull before the first settles, no cancel hook, and a controller, as the stream machinery gives it; the inline mode without a scheduler is the run in which every read is delivered at once.
- LockSafety.HoldersAreCompatible: holds for callers that keep SQLite's discipline (Lock raises, RESERVED is asked for from SHARED, PENDING never, Unlock goes to SHARED or NONE), since `Lock` and `Unlock` set the level even when the manager does nothing.
- FileHandle: a thread inside an operation does not call Close on the same handle; streams over handles are not modelled.
- CacheModel: times and sizes are unbounded integers, and cloneRecord is the identity on values, so aliasing between a cached record and a returned one is not captured.
- SyncBinding: key validation, value decoding, size limits and the bulk response limit, which reject without touching store or cache. The store reports the expiration of every record it returns; one that does not is outside CacheIsInvisible. The asynchronous binding has no such theorem, because writes can fall between reading the store and filling the cache: LateRefill and FillExact say exactly what then holds.
- SyncBinding.BulkBinder.Split: all keys are looked up at one instant, and the store answers all missed keys at one instant; the code takes the cache's lock key by key, and the worker pool asks key by key.
- BulkGet.CancelledIsPartial: the package's only caller passes a background context (cloudflarekv/bulk.go:112), which nothing cancels, so for it UncancelledIsComplete applies.
- Escape: the table of the `search` setter only differs in its entries and is a parameter.
- HTTP, TLS, WebSocket, Afero, SQLite, path functions, Buffer accessors, URL setters, console formatting, the vendored promise library and type declarations.
