# Verified model of rffmpeg's worker and client core

rffmpeg runs ffmpeg on remote workers. This project models the parts of its worker and command-line
client that hold the hardest logic, and proves what they promise. Nothing here runs the program.

* **Progress and ETA** (`SeekWindow`, `EtaRates`, `EtaEstimate`, `ProgressParser`, `ProgressRuns`,
  `ProgressRouter`): percent against the trim window with a floor that survives retries, and an ETA
  that is shown only when one integer is within 20% of every finish the measured rates permit.
* **Ordered stdout streaming** (`StdoutBatcher`, `StdoutRuns`): flushes spawn senders chained by gates;
  every interleaving of callers, timer, cancellation and senders is a run of atomic steps.
* **Stream splitter** (`LineSplitter`): stderr lines whatever the cuts of the pipe.
* **Argument vector** (`FfmpegOpts`, `JobArgs`, `ArgParser`, `ArgLaws`, `BuildArgs`): what the client strips from an argv and
  what the worker puts back.
* **Disk cache** (`LruTracker`, `Cache`, `CacheRuns`, `CacheUses`, `CacheAccounting`, `CacheWitnesses`,
  `CacheKey`): index, content, order of use, accounting and key.
* **Output enumeration** (`OutputTargets`): an unbounded loop that ends because paths never repeat.
* **Parameter translation** (`EncoderMapping`, `Translator`, `TranslatorLaws`, `TranslationRules`): stages,
  chains and hardware defaults over arbitrary rule tables.
* **Hardware codec check** (`CodecCheck`, `CodecCheckRuns`, `CodecCheckAnswers`): single-flight probing by concurrent calls.
* **Client wait** (`WaitLoop`) and **retry run** (`RetryExecutor`, `RetryRuns`, `RetryLaws`).

Objects the program updates in place are classes whose methods are proved equal to functions on
their abstract state; the theorems are about those functions and about whole runs of them.

## Where the code differs from its own words

* `--` as an option value is accepted by the client and then makes the worker append no output
  (`BuildArgs.SeparatorLosesTheOutput`), and an option value that reads like the placeholder takes the
  input (`BuildArgs.PlaceholderTakesTheInput`); `BuildArgs.ArgvSurvives` gives the exact condition.
* The cache promises the bytes of the last store; a crash between rename and metadata can break that
  (`CacheWitnesses.CrashAfterRenameServesTheUnfinishedStore`), exactly when
  `CacheRuns.HitServesTheLastStore` and `CacheRuns.CrashHitsExactly` say.
* Input markers are said to be excluded from a cache key; one that follows an option, as it does after
  `-i`, is kept as that option's value (`CacheKey.MarkerIsKeptExactly`).
* The accounting of the cache leaks bytes after a failed metadata write (`CacheWitnesses.LostDataLeaks`),
  misses bytes after a crash that leaves longer data (`CacheWitnesses.OverlongCrashFallsShort`) and
  misses entries after a metadata write that completes behind an error
  (`CacheWitnesses.CompletedMetadataMiscounts`); `CacheAccounting.SizeAddsUpExactly` and
  `CacheAccounting.CountAddsUp` say exactly when and by how much.
* `HardwareParams` of a chain of two encoders is empty although defaults were injected
  (`TranslatorLaws.ChainOfTwoReportsNone`), and an empty value can reach the output arguments although a
  comment says it never must (`TranslatorLaws.EmptyBitRateReachesResult`).
* A codec check can answer "not settled" after the verdict was cached
  (`CodecCheckRuns.LateInconclusiveAnswer`).
* The client can cancel a job less than the grace after a verdict that was attached while it waited
  (`WaitLoop.GraceIsCutExactly`), and never gives up a started job without `--timeout`
  (`WaitLoop.StartedJobIsNeverGivenUp`).
* `FinalEncoder` and `UsedSoftwareEncoder` can name an encoder that never ran
  (`RetryRuns.FinalEncoderCanBeWrong`, `RetryRuns.UsedSoftwareExactly`); the recorded stage is the attempt number's, not the strategy's
  (`RetryRuns.StageCanMislead`); `PrunedParams` lists what was pruned after the entry's
  attempt, not before it (`RetryRuns.ArgumentsFollow`); and the final diagnosis of a run that failed for
  a missing output says success (`RetryRuns.DiagnosisCanSaySuccess`).

## Model

| member | source | states |
|---|---|---|
| `SeekWindows.WindowCountsSurvivors` | pkg/worker/progress_parser.go:728-775 | for every combination of the six trim options (malformed negative timecodes included) the percent denominator is the number of input microseconds that survive the input section and then the output section, and never more than the input |
| `SeekWindows.KeptInstant` | pkg/worker/progress_parser.go:756-775 | one section keeps exactly the trimmed number of instants, starting at -ss |
| `EtaRates.NearestIsFirstMinimum` | pkg/worker/progress_parser.go:495-503 | the row a block is measured from is the first of the rows nearest to the block edge |
| `EtaRates.EvidenceBand` | pkg/worker/progress_parser.go:391-512 | a returned band is positive and holds the projected pace and every measurable block rate of the window, its fast end is a measured rate, its slow end is a measured rate or the throughput of the whole window, and it is settled exactly when no two consecutive measurable blocks differ by more than 25%; BlockRateMeans and WindowRateMeans say what the rates are |
| `EtaRates.EvidenceIsMean` | pkg/worker/progress_parser.go:457-472 | the projected pace times the number of measurable blocks is the sum of their rates |
| `EtaRates.BlockRateMeans` | pkg/worker/progress_parser.go:482-512 | a block is measured from the first row nearest to two seconds before its end; its rate times its span is its share of the duration when it lasts at least a second and gained, and zero otherwise |
| `EtaRates.WindowRateMeans` | pkg/worker/progress_parser.go:444-447 | the throughput of the window times the time since its first row is the share of the duration it gained |
| `EtaRates.WindowIsTenSeconds` | pkg/worker/progress_parser.go:403-408 | the window reaches back over the rows of the last ten seconds and no further |
| `EtaRates.EvidenceIsGivenExactly` | pkg/worker/progress_parser.go:391-452 | there is evidence exactly when the duration is known, the attempt is ten seconds old, the window holds two rows over three seconds, two of them end measurable blocks, and the window as a whole gained |
| `EtaRates.SteadyStreamIsMeasured` | pkg/worker/progress_parser.go:391-473 | when the rows of the window lie on a line of v media seconds per wall second, pace and both ends of the band are v, and the evidence is settled |
| `EtaRates.MeanIsBetween` | pkg/worker/progress_parser.go:457-472 | the projected pace lies between the slowest and the fastest block |
| `EtaRates.EvidenceIgnoresOld` | pkg/worker/progress_parser.go:391-512 | samples older than the window in front of the history never change the evidence |
| `EtaEstimate.FinishBetween` | pkg/worker/progress_parser.go:529-578 | every future the evidence permits - any number of segments at rates inside the band, up to 5 hidden media seconds, up to 0.75 s of closing - ends between the two computed bounds |
| `EtaEstimate.BoundsAreReached` | pkg/worker/progress_parser.go:574-578 | both bounds are the finish of a permitted future |
| `EtaEstimate.FillingEnds` | pkg/worker/progress_parser.go:552-567 | the start-up wait is over exactly once a step was seen, after 18 seconds, or after a third of the projected run |
| `EtaEstimate.CertifiedMeansInBand` | pkg/worker/progress_parser.go:579-588 | an integer is within 20% of every permitted finish exactly when it lies strictly between 0.8 times the late bound and 1.2 times the early one |
| `EtaEstimate.RenderedIsMinimax` | pkg/worker/progress_parser.go:587-602 | the rendered second is 0 exactly when no integer is feasible and otherwise a feasible one closest to the middle, so the final test for a non-positive second never fires |
| `EtaEstimate.EtaIsSound` | pkg/worker/progress_parser.go:539-603 | whenever a second is shown it is positive, comes from settled evidence past the start-up fill, and is within 20% of the finish of every permitted future |
| `EtaEstimate.EtaIsComplete` | pkg/worker/progress_parser.go:539-603 | past the fill, settled evidence shows nothing only when no second at all is certified; otherwise it shows a certified second closest to the middle of the finish interval |
| `EtaEstimate.SteadyFinish` | pkg/worker/progress_parser.go:539-603 | against a stream of v media seconds per second a certified second e encodes e v media seconds, within 20% of what remains |
| `ProgressParsers.ProgressParser.SetDuration` | pkg/worker/progress_parser.go:199-204 | a probed duration becomes the denominator unless a seek window stands |
| `ProgressParsers.ProgressParser.SetDurationUs` | pkg/worker/progress_parser.go:212-217 | a changed denominator clears the percent floor |
| `ProgressParsers.ProgressParser.SetSeekWindow` | pkg/worker/progress_parser.go:231-237 | a seek window on a known duration becomes the denominator; an unknown duration changes nothing |
| `ProgressParsers.ProgressParser.StartAttempt` | pkg/worker/progress_parser.go:615-621 | a new attempt restarts the sample history and keeps the percent floor |
| `ProgressParsers.ProgressParser.Reset` | pkg/worker/progress_parser.go:624-635 | a new job starts from the fresh state |
| `ProgressParsers.ProgressParser.RecordEtaSample` | pkg/worker/progress_parser.go:362-370 | appends the observation on the one-decimal grid and drops what is older than the window and a block edge, down to two samples |
| `ProgressParsers.ProgressParser.BlockRatesFrom` | pkg/worker/progress_parser.go:482-512 | one rate per row of the window, measured against the nearest row to the block edge, 0 where the block measures nothing, as BlockRateMeans says of each row |
| `ProgressParsers.ProgressParser.EtaRateRange` | pkg/worker/progress_parser.go:391-473 | the accumulating loops compute the evidence of the history, which EvidenceIsGivenExactly, EvidenceBand and EvidenceIsMean characterise, and remember a pace step seen during start-up |
| `ProgressParsers.ProgressParser.Estimate` | pkg/worker/progress_parser.go:539-603 | the shown second is the estimate of the current evidence |
| `ProgressParsers.ProgressParser.ParseLine` | pkg/worker/progress_parser.go:251-347 | the whole new state and the emitted frame for every line, dropped frames included |
| `ProgressParsers.Spread` | pkg/worker/progress_parser.go:419-440 | one pass over the block rates finds their number, slowest, fastest and whether two neighbours step |
| `ProgressRuns.PruningIsLossless` | pkg/worker/progress_parser.go:362-370 | over every run with a monotonic clock the parser that drops old samples emits exactly the frames, ETA included, of one that keeps every sample |
| `ProgressRuns.PruningKeepsEvidence` | pkg/worker/progress_parser.go:362-512 | at every point of every run and every later reading of the clock both hold the same rates, settled flag and start-up step |
| `ProgressRuns.MeasuredAgrees` | pkg/worker/progress_parser.go:281-330 | one line keeps the pruned and the complete history in agreement |
| `ProgressRuns.StepKeepsFloor` | pkg/worker/progress_parser.go:332-347 | under a standing denominator the floor never falls and an emitted percent is in range, at or above the old floor and equal to the new one |
| `ProgressRuns.PercentClimbs` | pkg/worker/progress_parser.go:251-347 | as long as the denominator stands the emitted percents never decrease, across attempts |
| `ProgressRuns.ProgressNeverRewinds` | pkg/worker/progress_parser.go:231-347 | once a seek window stands, every run up to the next window or job measures against that window and emits non-decreasing percents in [0, 100] |
| `ProgressRuns.RebasedScaleDoesNotStall` | pkg/worker/progress_parser.go:206-217 | after the denominator changes, the first known percent on the new scale is emitted however high the old scale had climbed |
| `ProgressRuns.DenominatorRules` | pkg/worker/progress_parser.go:199-237 | a probed duration counts unless a window stands, a window needs a known duration, and exactly a changed denominator clears the floor |
| `ProgressRuns.FrameIsDroppedExactly` | pkg/worker/progress_parser.go:332-345 | a line is dropped exactly when it carries no time= or its percent lies below the floor of an unchanged denominator |
| `ProgressRuns.PercentExactly` | pkg/worker/progress_parser.go:290-299 | percent is the encoded share of the denominator up to 100, and 100 beyond it |
| `ProgressRuns.ReadingAddsSample` | pkg/worker/progress_parser.go:281-330 | a line with positive time= and speed= under a known denominator adds one row, read at now and within a twentieth of the exact percent, to a suffix of the history; any other line adds none |
| `ProgressRuns.PruneIsExact` | pkg/worker/progress_parser.go:362-370 | pruning keeps a suffix, drops only rows more than twelve seconds old, and keeps such a row only as one of the last two |
| `ProgressRuns.SmoothedMoves` | pkg/worker/progress_parser.go:302-311 | the displayed speed starts at the first reading and moves three tenths of the way to each later one |
| `ProgressRuns.AttemptForgets` | pkg/worker/progress_parser.go:605-621 | a new attempt starts with one row at its start and nothing of the attempt before it, and every frame after it is the same whatever that attempt was |
| `ProgressRuns.FramesAreHighest` | pkg/worker/progress_parser.go:271-277 | through a whole attempt its age counts from its own start, and its frame count is the highest one any of its progress lines carried |
| `ProgressRuns.StepSeenExactly` | pkg/worker/progress_parser.go:451-455 | an attempt has seen its step exactly when one of its lines, within its first 18 seconds, had evidence with neighbouring blocks more than 25% apart |
| `ProgressRuns.ShownEtaIsCertified` | pkg/worker/progress_parser.go:321-330 | in every state, a frame with an ETA was measured after 20 media seconds and 120 frames from settled evidence, and the ETA is certified for that evidence |
| `ProgressRuns.ShownEtaIsComplete` | pkg/worker/progress_parser.go:316-330 | a line of settled evidence past the fill shows no ETA only when no second at all is certified, and otherwise a certified one closest to the middle of the finish interval; any other line shows none |
| `ProgressRuns.SteadyEta` | pkg/worker/progress_parser.go:251-603 | on a steady stream of v media seconds per wall second a shown ETA of e seconds encodes e v media seconds, within 20% of what remains |
| `ProgressRouters.ProgressRouter.Handler` | pkg/worker/progress_router.go:69-113 | one stderr line updates the parser and sends at most one throttled update |
| `ProgressRouters.ProgressRouter.SendFinal` | pkg/worker/progress_router.go:61-66 | appends the terminal 100% update on the current denominator |
| `ProgressRouters.ProgressRouter.Reset` | pkg/worker/progress_router.go:116-119 | starts the parser and the throttle afresh and sends nothing |
| `ProgressRouters.SendsExactlyWhenDue` | pkg/worker/progress_router.go:69-113 | an update is sent exactly when the line yields a frame of known percent and a second has passed since the throttle last let a frame through, and carries that frame; a frame of unknown percent takes the throttle's turn |
| `ProgressRouters.RunKeepsSteady` | pkg/worker/progress_router.go:54-113 | every run of lines, duration reports and attempts keeps the sent updates in range, in order, on one denominator and a second apart |
| `ProgressRouters.ServerProgressNeverRewinds` | pkg/worker/progress_router.go:61-113 | with the terminal update appended the server receives non-decreasing percents in [0, 100], all on the seek window, the throttled ones at least a second apart |
| `StdoutBatchers.StdoutBatcher.Add` | pkg/worker/stdout_batcher.go:87-107 | takes a chunk unless cancelled, and flushes a full batch |
| `StdoutBatchers.StdoutBatcher.TimedFlush` | pkg/worker/stdout_batcher.go:110-127 | flushes what is pending unless cancelled: afterwards the senders hold every accepted byte (FlushPassesEverything) |
| `StdoutBatchers.StdoutBatcher.FlushLocked` | pkg/worker/stdout_batcher.go:130-171 | joins the pending chunks and chains one sender behind the previous gate |
| `StdoutBatchers.StdoutBatcher.Flush` | pkg/worker/stdout_batcher.go:174-178 | flushes what is pending, cancelled or not |
| `StdoutBatchers.StdoutBatcher.Receive` | pkg/worker/stdout_batcher.go:153-157 | a sender starts its send only when its gate is closed |
| `StdoutBatchers.StdoutBatcher.Record` | pkg/worker/stdout_batcher.go:157-166 | only the first failure is kept |
| `StdoutBatchers.StdoutBatcher.CloseGate` | pkg/worker/stdout_batcher.go:153-166 | a sender closes its own gate after its send returned, failed or not |
| `StdoutRuns.BatcherStepKeepsInv` | pkg/worker/stdout_batcher.go:87-171 | every atomic step of every participant keeps the gates chained, the starts in order, the bytes conserved and the first failure reported |
| `StdoutRuns.OpenGateMeansOldest` | pkg/worker/stdout_batcher.go:145-167 | a waiting sender can pass exactly when every earlier sender has closed its gate |
| `StdoutRuns.StreamsInOrder` | pkg/worker/stdout_batcher.go:87-196 | in every interleaving the payloads passed to the server concatenate to a prefix of the bytes of the Adds before the first cancellation, and at most one send is in flight |
| `StdoutRuns.AcceptedIsTaken` | pkg/worker/stdout_batcher.go:87-101 | over every run the batcher has accepted exactly the bytes of the Adds before the first cancellation, in order |
| `StdoutRuns.FlushPassesEverything` | pkg/worker/stdout_batcher.go:110-178 | after a timer that fires before any cancellation, a flush or the flush of FlushAndWait, nothing is pending and the senders hold every byte accepted |
| `StdoutRuns.AddBatches` | pkg/worker/stdout_batcher.go:87-107 | a cancelled Add changes nothing; otherwise a full batch becomes one sender holding the pending chunks and the new one, and any other chunk stays pending |
| `StdoutRuns.FlushedBytesReachTheServer` | pkg/worker/stdout_batcher.go:110-178 | over every run, every byte added before an uncancelled timer, or before any flush, is held by senders from then on, and has been passed to the server whenever no sender is left running |
| `StdoutRuns.FlushAndWaitIsHonest` | pkg/worker/stdout_batcher.go:187-196 | when FlushAndWait returned nil, the bytes accepted before it took the lock are exactly the payloads of the first sends and each succeeded; when it returned an error, that is the error of the first failed send |
| `StdoutRuns.FlushAndWaitCoversItsCaller` | pkg/worker/stdout_batcher.go:187-196 | a returned FlushAndWait traces back to its call in the run: the bytes of the Adds before that call are the payloads of the first sends, each of which succeeded when it returned nil |
| `StdoutRuns.WaiterPasses` | pkg/worker/stdout_batcher.go:187-196 | a waiting caller passes exactly while the wait group is empty, and then returns the first failure |
| `StdoutRuns.FlushAndWaitReturns` | pkg/worker/stdout_batcher.go:187-196 | from every reachable state the senders alone, whatever the server answers, let a blocked caller return |
| `StdoutRuns.CloseDeliversEverything` | pkg/worker/stdout_batcher.go:201-212 | once a flush that began after the cancellation has waited, every byte of the Adds before the cancellation was passed on and no sender is left |
| `StdoutRuns.OldestCanMove` | pkg/worker/stdout_batcher.go:145-167 | the oldest unfinished sender always has a step, and the step is progress |
| `StdoutRuns.SendersDrain` | pkg/worker/stdout_batcher.go:145-196 | from every state of the protocol some schedule of the senders alone, whatever the server answers, empties the wait group in a bounded number of steps |
| `StdoutRuns.EverySenderRunDrains` | pkg/worker/stdout_batcher.go:145-196 | every run of senders alone ends within a bound, in whatever order they move, and where none can move any more the wait group is empty and all flushed bytes are passed on |
| `StdoutRuns.SenderStepDescends` | pkg/worker/stdout_batcher.go:145-167 | a step of a sender that changes anything is progress |
| `StdoutRuns.PayloadsFitTheWire` | pkg/protocol/websocket.go:27-39 | with the default batch and reads of at most one chunk every payload, base64-encoded, leaves the message its 1024 bytes of envelope |
| `LineSplitter.SplitProgressLines` | pkg/worker/executor.go:485-507 | the token is the data before its first CR or LF, the advance takes CR LF as one end, the unterminated rest is a token at the end of the stream only |
| `LineSplitter.LinesConcat` | pkg/worker/executor.go:485-507 | cutting a stream right after a line end cuts its lines there too |
| `LineSplitter.LinesAreTheCuts` | pkg/worker/executor.go:485-507 | an empty stream has no lines, a piece without CR and LF is one line, and a CR or LF anywhere separates the lines before it from the lines after it |
| `LineSplitter.ScanLines` | pkg/worker/executor.go:292-313 | however the pipe is cut into reads, between CR and LF included, the lines handed on are the non-empty pieces of the whole stream cut at CR and LF; the scanner stops early exactly when 64 KiB hold no line end, and then the lines are those before the first such run |
| `FfmpegOpts.OneArityRule` | pkg/worker/executor.go:567-574 | the worker reads the same arity from every option as the CLI, for any option table; IsBooleanExactly says which arity |
| `FfmpegOpts.IsBooleanExactly` | pkg/ffmpegopts/ffmpegopts.go:121-141 | an option takes no separate value exactly when its name holds "=", or the name up to the first ":" is a switch of the table, or it is "no" in front of a switch that does not itself begin with "no" |
| `ArgLaws.WordReads` | pkg/cli/args/parser.go:87-154 | the input and output flags take the next word whatever it is, a word without a leading "-" and "-" itself stand alone, and any other option takes the next word exactly when its name needs a value |
| `ArgLaws.SwitchPasses` | pkg/cli/args/parser.go:126-134 | an option without value in front of any argv is passed on and changes nothing else: the words after it are parsed as if it were not there |
| `ArgLaws.SettingPasses` | pkg/cli/args/parser.go:135-147 | an option with value is passed on with the next word, whatever that word is, and the words after them are parsed as if they were not there |
| `ArgLaws.NostdinIsPassed` | pkg/cli/args/parser.go:126-134 | -nostdin, where stdin is a switch, in front of an ordinary argv takes no word of it |
| `ArgGrammar.ReadingRenders` | pkg/cli/args/parser.go:87-154 | cutting an argv into inputs, flags, settings and outputs loses nothing: written out again it is the argv |
| `ArgParser.FindOutputCandidate` | pkg/cli/args/parser.go:203-224 | the index of the last bare word, or -1 |
| `ArgParser.HasExplicitInput` | pkg/cli/args/parser.go:189-196 | whether some word is an input flag |
| `ArgParser.Parse` | pkg/cli/args/parser.go:56-183 | the parser loop returns what the reading of the argv says, error for error |
| `ArgParser.LastBareReads` | pkg/cli/args/parser.go:203-224 | there is no output candidate exactly when the reading has no bare word |
| `ArgParser.ParseAccepts` | pkg/cli/args/parser.go:56-183 | an argv is accepted exactly when it is complete, names an input, has at most one bare word and one non-empty output after any empty ones; the result is the inputs in order, the passthrough words in order and that output |
| `ArgLaws.ParseErrorsExactly` | pkg/cli/args/parser.go:56-183 | which rejection an argv gets: the first superfluous output is named unless no word is an input flag, where the missing input is reported; then an option at the end without its value; then a missing input; then a missing output |
| `ArgLaws.NormalizedExactly` | pkg/cli/args/parser.go:163-173 | pipe:1 in any letter case is the standard output, and nothing else is respelled |
| `BuildArgs.FindSeparatorIndex` | pkg/worker/executor.go:425-432 | the first "--", or -1 |
| `BuildArgs.HasOutputArg` | pkg/worker/executor.go:441-476 | the scan of the output section equals its recursive reading |
| `BuildArgs.MeetsOutputExactly` | pkg/worker/executor.go:441-476 | the scan finds an output exactly when a bare word follows an input or a bare word that stands for one |
| `BuildArgs.Build` | pkg/worker/executor.go:382-422 | placeholders are filled in order and the output is appended unless it is there already |
| `BuildArgs.NothingMeetsOutput` | pkg/worker/executor.go:441-476 | whatever fills the placeholders, the passthrough words of a parsed argv are never mistaken for an output |
| `BuildArgs.SlippedFit` | pkg/worker/executor.go:385-400 | once inputs have slipped past an option value that reads like the placeholder, everything fits only if nothing can differ |
| `BuildArgs.AlignedFit` | pkg/worker/executor.go:385-400 | the inputs land where they were typed exactly when no real input follows such an option value |
| `BuildArgs.SeparatorDecides` | pkg/worker/executor.go:402-419 | the output is appended last exactly when no "--" is kept other than as the last word |
| `BuildArgs.ArgvSurvives` | pkg/worker/executor.go:382-476 | for every accepted argv the worker runs the caller's words with the one output moved to the end, exactly under the two conditions above |
| `BuildArgs.SeparatorLosesTheOutput` | pkg/worker/executor.go:402-413 | an accepted argv with "--" as an option value for which no output is appended at all |
| `BuildArgs.PlaceholderTakesTheInput` | pkg/worker/executor.go:385-400 | an accepted argv whose option value reads like the placeholder: the value takes the input and the input the placeholder |
| `LruTrackers.LruTracker.Touch` | pkg/worker/cache.go:124-132 | changes the last use of a tracked key and nothing else |
| `LruTrackers.LruTracker.Add` | pkg/worker/cache.go:135-150 | binds the key to its size and last use, new or not |
| `LruTrackers.LruTracker.Remove` | pkg/worker/cache.go:153-170 | swap-remove takes exactly the key out of the map the index stands for |
| `LruTrackers.LruTracker.SizeOf` | pkg/worker/cache.go:173-181 | the tracked size, if any |
| `LruTrackers.LruTracker.GetLRU` | pkg/worker/cache.go:186-201 | an entry no tracked key was used before, or none when nothing is tracked |
| `LruTrackers.LruTracker.TotalSize` | pkg/worker/cache.go:211-219 | the sum of the tracked sizes |
| `LruTrackers.SwapKeepsIndex` | pkg/worker/cache.go:153-170 | moving the last entry into the gap keeps every other key pointing at its own entry |
| `Caches.Cache.constructor` | pkg/worker/cache.go:290-328 | opening scans what the disk holds |
| `Caches.Cache.ScanExisting` | pkg/worker/cache.go:606-662 | index and accounting are rebuilt from readable metadata with data and from fresh temporary files; orphaned metadata and stale temporary files go |
| `Caches.Cache.RemoveEntry` | pkg/worker/cache.go:826-837 | files, index entry, size and count of one key go |
| `Caches.Cache.Check` | pkg/worker/cache.go:435-490 | every miss path and the removal of expired, torn or empty entries |
| `Caches.Cache.ConfirmHit` | pkg/worker/cache.go:494-501 | counts the hit and refreshes the last use of a tracked key, which LastUseIsTrue follows over every run |
| `Caches.Cache.Put` | pkg/worker/cache.go:507-587 | the complete state after a store that succeeds or fails at any step |
| `Caches.Cache.Track` | pkg/worker/cache.go:572-580 | re-caching a key swaps its accounted size |
| `Caches.Cache.EvictExpired` | pkg/worker/cache.go:718-802 | removes what has expired and reclaims stale temporary files |
| `Caches.Cache.EvictLRUIfNeeded` | pkg/worker/cache.go:807-822 | the loop ends within budget or with nothing tracked, and removed one least recently used key after the other while over budget |
| `Caches.Cache.Clear` | pkg/worker/cache.go:840-856 | leaves an empty disk, index and accounting |
| `CacheRuns.HitServesTheLastStore` | pkg/worker/cache.go:435-587 | after every run, with stores that fail or crash at any step, a hit serves non-empty bytes; it serves the most recent successful store of the key, within its lifetime, exactly unless a crash left other bytes of the key |
| `CacheRuns.StrayComesFromACrash` | pkg/worker/cache.go:551-570 | bytes are left of a key exactly by a store that crashed between rename and return, until a later store of the key gets as far as its rename |
| `CacheRuns.CrashHitsExactly` | pkg/worker/cache.go:435-490 | after such a crash and a reopen, on any disk, a lookup hits exactly when readable, unexpired metadata of the very length of the new, non-empty bytes is there, and then serves the new bytes |
| `CacheRuns.StoreThenHit` | pkg/worker/cache.go:435-587 | a successful store is served until it expires |
| `CacheAccounting.SizeAddsUpExactly` | pkg/worker/cache.go:446-856 | over every run, whatever store fails or crashes and however its metadata write ends, the size is at every point the tracked sizes plus leftover temporary files plus the tracked bytes sweeps did not find on the disk, exactly as long as no sweep meets an entry whose data is longer than tracked while something else is counted |
| `CacheAccounting.SweepBalancesExactly` | pkg/worker/cache.go:755-765 | sweeping one entry keeps the size balanced exactly when its data is no longer than tracked, or nothing else is counted |
| `CacheAccounting.ModestRunsAreFair` | pkg/worker/cache.go:718-802 | no sweep of a run meets such an entry when no crash leaves data longer than the metadata under it |
| `CacheAccounting.CountAddsUp` | pkg/worker/cache.go:446-856 | over every run the entry count is the number of tracked keys less the swept entries nothing tracked since the last start, as far as tracked ones are left to be short of |
| `CacheAccounting.SweepCountsRightExactly` | pkg/worker/cache.go:755-765 | a sweep leaves a right count right exactly when all it removes is tracked or nothing tracked is left |
| `CacheAccounting.CountIsExact` | pkg/worker/cache.go:446-856 | the count is the number of tracked keys over every run in which no metadata write of an untracked key completes behind a reported failure |
| `CacheAccounting.SizeIsExact` | pkg/worker/cache.go:446-856 | when metadata writes succeed and crashes leave data as long as the metadata under it, the size is the tracked sizes plus leftover temporary files |
| `CacheAccounting.RemoveIsSized` | pkg/worker/cache.go:826-837 | removing an entry gives back exactly the size passed, never cut off at zero, when that is at most what is tracked |
| `CacheAccounting.PutIsSized` | pkg/worker/cache.go:507-587 | a store that fails at whatever step, however its metadata write ends, keeps the size balanced |
| `CacheRuns.EvictionIsLru` | pkg/worker/cache.go:807-822 | every evicted key has an earlier or equal tracked last use than every survivor, and the cache was over budget before each removal |
| `CacheUses.LastUseIsTrue` | pkg/worker/cache.go:124-150 | over every run the tracked last use of a key is the clock reading of the latest event that stored it, confirmed a hit on it or opened the cache |
| `CacheUses.EvictedWasUsedFirst` | pkg/worker/cache.go:807-822 | over every run, whatever is evicted was last stored, confirmed or found at an opening no later than every key that stays |
| `CacheUses.PutTracks` | pkg/worker/cache.go:572-587 | a store that succeeds is tracked with its size and as used now, and any other store tracks nothing new |
| `CacheUses.ValidKeysAreHashes` | pkg/worker/cache.go:266-277 | a key is valid exactly when it is 64 lower-case hexadecimal digits |
| `CacheUses.LookupExactly` | pkg/worker/cache.go:435-490 | a lookup hits exactly on a valid key with data and readable metadata within its lifetime and of the recorded, non-zero length; an entry that fails only the last two is deleted, and nothing else is touched |
| `CacheUses.SweepRemovesExactly` | pkg/worker/cache.go:718-802 | a sweep deletes and forgets exactly the entries that outlived their lifetime, and the temporary files at least an hour old |
| `CacheUses.OpenTracksExactly` | pkg/worker/cache.go:606-662 | opening tracks exactly the readable entries whose data is there, with their recorded size and as used now, and deletes readable metadata without data and temporary files over an hour old |
| `CacheUses.StatsAreTallies` | pkg/worker/cache.go:435-501 | over every run hits, misses and evictions are the confirmed hits, the lookups that missed and the entries swept or evicted since the last opening or clear |
| `CacheWitnesses.LostDataLeaks` | pkg/worker/cache.go:755-765 | a run: a re-store whose metadata write fails, then the expiry sweep; bytes of nothing stay in the size |
| `CacheWitnesses.CompletedMetadataMiscounts` | pkg/worker/cache.go:566-570 | a run: a metadata write that completes and still reports an error makes the sweep forget an entry that is tracked |
| `CacheWitnesses.OverlongCrashFallsShort` | pkg/worker/cache.go:755-765 | a run: a crash leaves three bytes under metadata of one, and the sweep takes away the two bytes of another entry |
| `CacheWitnesses.CrashAfterRenameServesTheUnfinishedStore` | pkg/worker/cache.go:551-570 | a run: a crash between rename and metadata leaves new bytes under the old metadata, and a lookup serves them |
| `CacheKey.CanonicalizeArgs` | pkg/worker/cache.go:371-413 | the joined, length-prefixed tokens the loop keeps, which KeptExactly characterises |
| `CacheKey.KeptExactly` | pkg/worker/cache.go:371-413 | a word is part of the key exactly when it starts with a dash, or directly follows a word that does and carries no "=" |
| `CacheKey.ValueIsInForm` | pkg/worker/cache.go:398-408 | two values of an option give the same canonical form only when they are equal, whatever words stand around them |
| `CacheKey.MarkerIsKeptExactly` | pkg/worker/cache.go:381-403 | the placeholder of an input is kept exactly where it follows an option without "=", as it does after -i |
| `CacheKey.FirstTokenIsUnique` | pkg/worker/cache.go:396-412 | a text starts with at most one encoded token, whatever spaces, colons and digits the token holds |
| `CacheKey.JoinInjective` | pkg/worker/cache.go:396-412 | the encoding of token lists is injective |
| `CacheKey.SameFormIffSameTokens` | pkg/worker/cache.go:371-413 | two argument lists share a canonical form exactly when the words that matter - options, and words directly behind an option without "=" - are the same in the same order |
| `Decimal.ItoaInjective` | pkg/worker/cache.go:396-412 | decimal length prefixes of different lengths differ |
| `Decimal.ItoaValue` | pkg/worker/cache.go:396-412 | a decimal length prefix reads as the length, without a leading zero |
| `OutputTargets.MultiOutputPath` | cmd/cli/transcode.go:551-563 | index 0 is the path itself, others insert _i before the last dot |
| `OutputTargets.NumberGoesBeforeExtension` | cmd/cli/transcode.go:551-563 | for a base and an extension, which is empty or the last dot and what follows it, output i is base_i with the extension |
| `OutputTargets.OutputPathInjective` | cmd/cli/transcode.go:551-563 | no two indices give the same path |
| `OutputTargets.NotSeen` | cmd/cli/transcode.go:513-527 | the enumeration never meets a path again |
| `OutputTargets.ExistingOutputTargets` | cmd/cli/transcode.go:513-527 | the unbounded loop ends with the path, if it exists, and the longest unbroken run _1 .. _k; an unreadable primary path ends it empty |
| `Translators.Translator.InjectHardwareParams` | pkg/encoder/translator.go:725-771 | adds the defaults that are neither bound nor in conflict, in table order |
| `Translators.Translator.SortedParamNames` | pkg/encoder/translator.go:241-245 | the parameter names in byte order |
| `Translators.Translator.TranslateParam` | pkg/encoder/translator.go:247-307 | what one parameter adds to parameters, errors and warnings, status by status |
| `Translators.Translator.Translate` | pkg/encoder/translator.go:197-320 | one stage: unregistered encoders, strict stop at the first failure, injection last |
| `Translators.Translator.TranslateChain` | pkg/encoder/translator.go:774-866 | the fold of the stages, completed for the last encoder; the injection flag is restored on every way out |
| `TranslatorLaws.InjectionOnlyAdds` | pkg/encoder/translator.go:725-771 | injection keeps every existing binding, reports what it adds, and no injected rule conflicts with a translated parameter or with one injected before it |
| `TranslatorLaws.InjectionIsMaximal` | pkg/encoder/translator.go:725-771 | a default missing afterwards is blocked by a conflict |
| `TranslatorLaws.NothingToInject` | pkg/encoder/translator.go:725-771 | nothing is injected exactly when every default is bound or in conflict beforehand |
| `TranslatorLaws.InjectionIsIdempotent` | pkg/encoder/translator.go:725-771 | injecting again changes neither parameters nor the hardware report |
| `TranslationRules.ConflictIsNamed` | pkg/encoder/translator.go:737-752 | a default in conflict is named in a warning with the first present parameter of its conflict list |
| `TranslatorLaws.ChainInjectsOnce` | pkg/encoder/translator.go:774-866 | non-strict with injection on, the parameters of every chain of two or more encoders are one injection for the last encoder applied to the fold of injection-free stages |
| `TranslatorLaws.ChainReportsHardware` | pkg/encoder/translator.go:72-82 | the reported hardware parameters are the injected ones exactly when the chain has more than two encoders, or one of two is unregistered, or there is nothing to inject; a chain of two registered encoders reports none at all |
| `TranslatorLaws.ChainOfTwoReportsNone` | pkg/encoder/translator.go:774-866 | a chain of two whose parameters hold an injected default and whose report is empty |
| `TranslatorLaws.SortedNamesAscend` | pkg/encoder/translator.go:235-245 | the names come in strictly ascending order |
| `TranslationRules.LeqExactly` | pkg/encoder/translator.go:241-245 | the order of names is by prefix, and otherwise by the first character in which they differ |
| `TranslatorLaws.GreatestNameWins` | pkg/encoder/translator.go:235-256 | two parameters that meet in one target resolve to the greatest name on every run; a target nothing binds is absent |
| `TranslatorLaws.NoSilentLoss` | pkg/encoder/translator.go:252-307 | every parameter binds its target in the result or is named by a dropped or removed warning |
| `TranslatorLaws.EmptyValueCarried` | pkg/encoder/translator.go:257-272 | one parameter carries an empty value on exactly when no rule stops it, or a rule without default whose converter keeps it empty applies |
| `TranslatorLaws.EmptyValueReachesResult` | pkg/encoder/translator.go:247-307 | the result of a stage holds an empty value exactly where the parameter that decides the target is empty and carried, or is blanked by its converter: the guard against empty values covers failed conversions only |
| `TranslatorLaws.EmptyBitRateReachesResult` | pkg/encoder/translator.go:257-272 | an empty bit rate in the result of a stage |
| `TranslatorLaws.DirectRuleDecides` | pkg/encoder/translator.go:340-346 | where a pair of encoders has its own rule the per-codec tables change nothing |
| `TranslationRules.FirstRuleIsFirst` | pkg/encoder/mapping.go:110-125 | the rule looked up is the first one of the pair for the parameter, and none is found only if there is none |
| `TranslationRules.PairRuleDecides` | pkg/encoder/translator.go:340-402 | a pair's own rule binds its target to the value its converter, or else the codec's, makes of the value, or to the default for an empty one; a failed conversion keeps a non-empty original and drops an empty one with a warning; an empty target removes the parameter with a warning |
| `TranslationRules.TableNameDecides` | pkg/encoder/translator.go:431-516 | without a rule of the pair the codec's name table decides in the same way with the codec's converter |
| `TranslationRules.UnruledPasses` | pkg/encoder/translator.go:346-356 | without any rule a rate control parameter passes silently, a codec-scoped one passes silently within its codec and is removed across codecs, and every other one passes with a warning |
| `TranslationRules.StageReportsExactly` | pkg/encoder/translator.go:197-320 | a stage warns exactly when it crosses codecs, when the pair has no rules, and of what each parameter contributes; its errors are exactly those of the failed conversions |
| `TranslationRules.ChainReportsStages` | pkg/encoder/translator.go:804-850 | nothing a stage of a lenient chain reported is missing from the report of the chain |
| `TranslatorLaws.CodecScopedStaysBehind` | pkg/encoder/translator.go:431-445 | profile, level and qp cross codecs only by a rule of the pair, and are removed with a warning otherwise |
| `TranslatorLaws.StrictStopsAtLeastFailure` | pkg/encoder/translator.go:257-282 | a strict stage stops exactly when some parameter fails to convert, at the least such name |
| `TranslationRules.StrictChainExactly` | pkg/encoder/translator.go:774-866 | a strict chain with a failing stage, on the parameters the stages before it leave, reports no parameters at all; any other strict chain is translated exactly as a lenient one |
| `CodecCheckers.HardwareCodecChecker.Look` | pkg/worker/hw_codec_check.go:97-116 | the first critical section: a cached verdict, a probe to join, or a probe to own |
| `CodecCheckers.HardwareCodecChecker.Settle` | pkg/worker/hw_codec_check.go:121-126 | the second critical section: the probe leaves the table and a conclusive verdict is cached |
| `CodecCheckers.HardwareCodecChecker.Write` | pkg/worker/hw_codec_check.go:118-119 | the result is written before the lock is taken again |
| `CodecCheckers.HardwareCodecChecker.Close` | pkg/worker/hw_codec_check.go:127-128 | closing publishes the result to waiters |
| `CodecCheckRuns.StepKeepsInv` | pkg/worker/hw_codec_check.go:91-132 | every atomic step of every call keeps probes owned, tables disjoint and conclusive results backed by the cache |
| `CodecCheckRuns.SingleFlight` | pkg/worker/hw_codec_check.go:91-132 | in every reachable state at most one call probes an encoder, a probed encoder is not cached, and no inconclusive verdict is cached |
| `CodecCheckRuns.CachedForGood` | pkg/worker/hw_codec_check.go:91-132 | over every run a cached verdict never changes and no probe of its encoder starts again |
| `CodecCheckRuns.ConclusiveAnswersAgree` | pkg/worker/hw_codec_check.go:91-132 | all conclusive answers about an encoder agree, and are the cached verdict |
| `CodecCheckRuns.AnswerAfterCaching` | pkg/worker/hw_codec_check.go:91-132 | an answer given after caching equals the cached verdict exactly when the call looked afterwards or its earlier probe was conclusive |
| `CodecCheckRuns.LateInconclusiveAnswer` | pkg/worker/hw_codec_check.go:118-131 | a run in which a call answers "not settled" after another has cached that the encoder is unsupported |
| `CodecCheckRuns.NobodyIsStuck` | pkg/worker/hw_codec_check.go:104-116 | while a call has no answer, it or the owner of the probe it waits for can move without giving up |
| `CodecCheckRuns.RunsEnd` | pkg/worker/hw_codec_check.go:91-132 | every run ends: each call makes at most four steps |
| `CodecCheckRuns.BlockedOnlyByGap` | pkg/worker/hw_codec_check.go:87-167 | a job is blocked only with the codec-gap line some probe of that very encoder showed |
| `CodecCheckAnswers.ProbeIsAnswered` | pkg/worker/hw_codec_check.go:118-131 | in every interleaving the call that ran a probe answers what that probe showed: blocked exactly on a codec gap, with its line |
| `CodecCheckAnswers.ClassifyExactly` | pkg/worker/hw_codec_check.go:158-167 | a codec gap settles the question before the exit status does; without one a clean exit does, and a failed run settles nothing |
| `CodecCheckAnswers.SettledIsCached` | pkg/worker/hw_codec_check.go:121-126 | a settled probe is cached exactly when it was conclusive, for its encoder and no other |
| `CodecCheckAnswers.OnlyHardwareIsProbed` | pkg/worker/hw_codec_check.go:87-94 | over every run only hardware encoders are probed, and a call for any other is answered "not unsupported" |
| `CodecCheckAnswers.LookExactly` | pkg/worker/hw_codec_check.go:93-116 | a look finds the cached verdict, or else joins the probe under way, or else starts the only new one |
| `WaitLoop.WaitForJobLoop` | cmd/cli/wait.go:45-119 | the loop leaves in the first round that is not an extension, with that round's job and exit code, and cancels the job at most once and only by policy |
| `WaitLoop.BoundIsTheLatest` | cmd/cli/wait.go:147-173 | a bound exists exactly when --timeout, a verdict or the poll cap applies; it is the latest applicable bound plus grace and never before the server's verdict plus grace |
| `WaitLoop.SnapshotExtends` | cmd/cli/wait.go:147-214 | a bound is extended on the snapshot it came from exactly for a queued job and for a started job without --timeout |
| `WaitLoop.GivesUpExactly` | cmd/cli/wait.go:85-118 | the client gives up on a readable job exactly when it is neither finished nor queued, no verdict is due after the bound, and it has not started or its budget with grace is spent |
| `WaitLoop.LoopGivesUpExactly` | cmd/cli/wait.go:45-119 | over every script the loop gives up exactly when some round does so under these conditions after rounds that were all extended |
| `WaitLoop.ExtendedExactly` | cmd/cli/wait.go:85-100 | a round goes on exactly when its bound ran out on a readable, unfinished job that is queued, has a verdict due after the bound, or has started with no budget or one that, with five seconds of grace, outlasts the bound |
| `WaitLoop.UnboundedIsZero` | cmd/cli/wait.go:169-173 | a wait without a bound that reports an exceeded deadline is compared with the zero instant, so any verdict or started budget extends it |
| `WaitLoop.LoopLeaves` | cmd/cli/wait.go:72-119 | the first round that does not go on decides: a finished job exits with 0, an unreachable server and a detached wait with 2, any other error and a cancelled job with 1 |
| `WaitLoop.GraceIsKept` | cmd/cli/wait.go:122-127 | a verdict the bound was computed from has its whole grace at a give-up |
| `WaitLoop.GraceIsCutExactly` | cmd/cli/wait.go:175-184 | the client gives up with less than the grace after a verdict exactly when the verdict falls inside the last grace period before the bound and neither status nor start time keeps it waiting |
| `WaitLoop.CutVerdictIsNews` | cmd/cli/wait.go:122-127 | a verdict that loses grace was attached or moved after the bound was computed |
| `WaitLoop.GraceCanBeCut` | cmd/cli/wait.go:175-184 | a pending job cancelled at the very instant of its verdict |
| `WaitLoop.ExtensionNeedsNews` | cmd/cli/wait.go:186-214 | with --timeout an extension needs a changed or queued job |
| `WaitLoop.LoopEnds` | cmd/cli/wait.go:45-119 | with --timeout the loop runs at most one round more than there is news |
| `WaitLoop.UnchangingJobExtendsOnce` | cmd/cli/wait.go:175-214 | a job that no longer changes extends the wait at most once |
| `WaitLoop.StartedJobIsNeverGivenUp` | cmd/cli/wait.go:196-205 | without --timeout a job with a start time is never given up, however often its bound is exhausted |
| `RetryExecutors.Attempt` | pkg/worker/retry_executor.go:284-358 | one execution: announced, cleared, run, inspected, recorded |
| `RetryExecutors.RetryOnce` | pkg/worker/retry_executor.go:282-424 | the body of the retry loop, strategy switch included |
| `RetryExecutors.ExecuteWithRetry` | pkg/worker/retry_executor.go:249-536 | the run is the loop, the final fallback and the report |
| `RetryRuns.TrailIsTheRun` | pkg/worker/retry_executor.go:249-536 | at most one execution more than the limit; the entries are numbered from 1, hold the outcomes in order and determine every event of the run; no entry before the last succeeded |
| `RetryRuns.BoundaryAnnounces` | pkg/worker/retry_executor.go:286-304 | each execution is announced exactly once, before ffmpeg, when a callback is set |
| `RetryRuns.ArgumentsFollow` | pkg/worker/retry_executor.go:384-460 | the first attempt runs the user's arguments, each further one what the strategy made of the failure before, and the final fallback follows exactly a failed, uncancelled loop that chose no software encoder and has one |
| `RetryLaws.EntrySucceedsExactly` | pkg/worker/retry_executor.go:307-336 | an entry is a success exactly when ffmpeg exited cleanly without a sign of an error or of another encoder and left the file it was to leave, and a failure carries its reason |
| `RetryLaws.NextAttempt` | pkg/worker/retry_executor.go:384-424 | after a retryable failure the hardware parameters are pruned after the first attempt and the advanced ones after the second, later attempts run the fallback or the same arguments again, and a missing encoder, or an empty file where the fallback offers another encoder, brings the fallback in at once |
| `RetryLaws.StagesInOrder` | pkg/worker/retry_executor.go:554-565 | attempts are filed under the stages in order, the fourth and later ones and the final fallback under software fallback |
| `RetryLaws.LoopEndsExactly` | pkg/worker/retry_executor.go:275-395 | the loop ends before its limit only because of a success, an error that is not retryable, a missing encoder without fallback, or a cancellation |
| `RetryLaws.CancelStopsRun` | pkg/worker/retry_executor.go:276-280 | a job found cancelled at its c-th look makes at most c executions and no final fallback |
| `RetryLaws.FallbackRunsExactly` | pkg/worker/retry_executor.go:428-460 | the final fallback runs exactly when the loop failed, it is enabled, no software encoder was in use, the job is not cancelled, and the fallback has an answer |
| `RetryRuns.SuccessIsTheLastEntry` | pkg/worker/retry_executor.go:133-165 | the run succeeds exactly when its last (equivalently some) entry did, reports that execution, its stage and an encoder under which it passes inspection; the stage is exhausted exactly on failure, and the original encoder is the one of the user's arguments |
| `RetryRuns.FinalEncoderExactly` | pkg/worker/retry_executor.go:424-456 | the reported encoder is the last execution's, unless the run was cancelled after the strategy had switched encoders |
| `RetryRuns.UsedSoftwareExactly` | pkg/worker/retry_executor.go:404-456 | a software encoder is reported as used exactly when an attempt switched to one, or the final fallback ran, or the run was cancelled after the strategy had switched to one |
| `RetryRuns.FinalEncoderCanBeWrong` | pkg/worker/retry_executor.go:397-426 | a run that reports libx264 and a software fallback though only h264_qsv ever ran |
| `RetryRuns.StageFollowsStrategyExactly` | pkg/worker/retry_executor.go:554-625 | the stage of the next attempt number is the one the strategy chooses exactly when an early attempt is pruned or a later one falls back |
| `RetryRuns.RecordedStageExactly` | pkg/worker/retry_executor.go:282-424 | in the trail of every run an attempt of the loop is recorded under the stage the strategy chose for it exactly when an early attempt was pruned or a later one fell back |
| `RetryRuns.StageCanMislead` | pkg/worker/retry_executor.go:282-424 | a run that falls back to software at once and is recorded and reported as pruned hardware parameters, with the fallback named in the entry before it |
| `RetryRuns.DiagnosisIsLostExactly` | pkg/worker/retry_executor.go:529-535 | the final diagnosis of a failed run says success exactly when ffmpeg itself exited cleanly and its stderr analyses clean |
| `RetryRuns.DiagnosisCanSaySuccess` | pkg/worker/retry_executor.go:529-535 | a failed run without output whose diagnosis says success |

## Left out

- float64 rounding: rates, percents and speeds are reals; the clock is an integer of nanoseconds.
- Extraction by regular expressions and number parsing: a stderr line arrives as the values extracted from it.
- The display fields TimeElapsed and RawLine, the push interval of ShouldPush, and the forwarding of stderr lines to the underlying handler.
- Whether a progress update reaches the server: a send is logged, its error changes nothing.
- The timer of the stdout batcher as a device: that it fires is an event that may happen at any moment.
- LineSplitter.ScanLines: the end of the pipe is seen by a read of its own; a read returns at least one byte before that.
- Characters beyond one byte each: strings are sequences of characters and lengths count them.
- The generated option table, the codec tables and the value converters: arbitrary maps and functions.
- ArgParser.Parse: usage text, file existence checks, absolute paths and file URIs of the client are outside.
- The overwrite policy of -y and -n, which is a scan for two flags.
- The payload and SHA-256 of a cache key: only the canonical form of the arguments inside it.
- A disabled cache, directory modes and ownership, the background loops that call the sweeps, and outside processes in the cache directory.
- Caches.Cache.Put: one operation reads the clock once, and the source file does not change while it is copied.
- Metadata files that name an invalid key, which scans and sweeps discard: the disk of the model holds files by valid name.
- Caches.Cache.RemoveEntry: removals of files succeed.
- A crash in the middle of a removal, a sweep, an eviction or a clear: a process dies between operations or inside a store.
- Translation audit records, their chain positions, and the registration methods of the mapping.
- Translators.Translator.TranslateChain: one goroutine uses a translator at a time; the shared injection flag is not protected in the source.
- The command line, process group and time limit of a codec probe; which line counts as the codec gap is an input.
- WaitLoop.WaitForJobLoop: printed messages and the budget they name are outside; a wait with no bound that reports an exceeded deadline is compared with the zero instant, as the source does.
- Retry intervals, timestamps and messages of the audit trail; the pruner, the fallback tables and the stderr analysis are arbitrary functions of their arguments.
- RetryExecutors.ExecuteWithRetry: the context is looked at once per attempt and once before the final fallback, and stays cancelled once it is.
- HTTP, WebSocket, TLS, signals, the server's scheduler and database, and file uploads.
- The stderr batcher: its batches are sent without order and its waits are bounded, so it promises neither order nor delivery.
- The ring buffer recorder and the tail buffer, which keep recent output for diagnosis only, and CRF scaling, which is a table of numbers.
