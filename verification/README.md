# A verified model of loggerj's core

loggerj is an asynchronous structured logger for Go. Producers pass sampling and
rate-limit gates without locks, fill pooled entries and send them through a bounded
channel to one worker, which formats them as text or JSON lines and writes them to a
file that it rotates by size. A synchronous mode writes each line under one of four
durability tiers. This project models these components in Dafny 4.11 and proves their
central promises for all inputs, all runs and all interleavings.

`dafny verify dfyconfig.toml` checks the whole project.

## Structure

| module | models |
|---|---|
| `Basics`, `Decimal`, `Records` | bytes, machine integers, counting and concatenation; decimal text; fields, records and the formatter's configuration |
| `Utf8`, `JsonString`, `Json` | UTF-8 (RFC 3629); the JSON string escaper and a decoder for section 7 of RFC 8259; JSON values, their text and a parser for it |
| `Duration` | the duration printer and a parser in the style of `time.ParseDuration` |
| `JsonLine`, `TextLine` | the two line formatters with their field loops and baked prefixes |
| `Reading` | what a reader finds in a line of either format, in terms of the logged data alone |
| `RateLimit`, `Gates` | the packed rate-limit word; the CAS loop, sampling and all their interleavings |
| `Pipeline`, `PipelineSafety`, `PipelineFlush`, `PipelineServes`, `PipelineWrites`, `PipelineGrowth`, `PipelineDisk` | dispatch, channel, worker runs, `Flush` and `Close` as one step relation, and theorems about every run of it, down to the rotated files |
| `EntryPool` | pooled entries on the heap, one owner each, from producer to worker and back |
| `Worker`, `WorkerSteps`, `ProducerSteps` | the branches of the worker loop as methods on pooled entries and the log file; batches and producers' turns as steps of the pipeline |
| `Rotation` | the rename chain on a file system where any rename may fail, and the stream over the generations |
| `Durability` | sync mode over process buffer, page cache and fsynced file, with crashes |
| `Registry`, `Profiles` | the copy-on-write profile registry as values, and `RegisterSub`, `getProfile` and `Sub` on the heap |
| `Slog` | the slog adapter: flattening of value trees and chains of derived handlers |

Code that changes state step by step is modelled by methods with loops and by classes
(`Gates.SubProfile`, `Rotation.LogFile`, `Durability.SyncLog`, `Profiles.Logger`,
`EntryPool.Entry`, `EntryPool.System`, `Worker.Worker`). Most of these methods are proved
equal to a function, and the promises are proved about that function; those of
`EntryPool.System` and `Worker.Worker` state what they take, format and write directly,
whatever producers do meanwhile. Concurrency is a step relation: a run is any list of atomic
actions, so Go's `select`, timeouts, tickers and schedulers are arbitrary choices. The
machines are connected with the methods: `Gates.AloneIsCheck` for the gates;
`WorkerSteps.BatchIsSteps` and `WorkerSteps.BatchHasRun` for a batch of the worker, with
anything done by others in its gaps; `ProducerSteps.TurnIsStep` for a producer's turn.

## Where the code differs from what it says

- **Close** (`worker.go:312-346`). "Every entry sent before Close is written when Close
  returns because the worker stopped" is false when the worker has already taken its last
  look at the channel and an entry is still queued: `PipelineFlush.CloseLeavesEntry` gives
  a run, `PipelineFlush.CloseExact` the exact condition.
- **Flush** (`worker.go:271-272`). The comment that the request channel is guaranteed to be
  empty under `flushMu` is false after a `Flush` that timed out: the send blocks if and only
  if some timed-out request was never received by a worker (`PipelineFlush.FlushSendBlocks`).
  `PipelineFlush.FlushCanBlock` gives a run in which it does with no worker left, and
  `PipelineFlush.BlockedWithoutWorker` shows that it then stays blocked until a worker starts.
  What `Flush` promises when it does return through its own `done` channel holds in all of
  these runs (`PipelineFlush.FlushGuarantee`).
- **Size of rotated files.** The writes of `Flush` and of the final drain skip the rotation
  check, so the bound MaxFileSize + FlushThreshold + longest line fails with them. In every
  run a rotated file stays below that bound plus its unchecked bytes
  (`PipelineWrites.GenerationBound`); without an effective `Flush` and with one worker run
  these are none (`PipelineWrites.RotatedSize`). For a file found below MaxFileSize the old
  bound holds of all runs with at most f effective `Flush` calls and s worker runs if and
  only if s = 0, or s = 1 and f = 0 (`PipelineGrowth.RotatedSizeExact`).
- **FsyncEveryN** (`config.go:77-80`). The entries written after the last fsync are still in
  process memory if and only if together they fit the 65536-byte buffer
  (`Durability.UnsyncedExact`); two ordinary lines can be enough to put the first 65536 bytes
  into the page cache (`Durability.UnsyncedInPageCache`). The bound of N-1 unsynced entries
  holds.
- **slog groups.** A group attribute without a key is inlined without the handler's
  `WithGroup` prefix. `Slog.GroupReaches` says exactly for which attributes the prefix
  reaches the leaves. For attributes with keys a chain of `WithAttrs` and `WithGroup` is
  one tree, as slog promises (`Slog.ChainIsTree`).

## Model

| member | source | states |
|---|---|---|
| Utf8.DecodeEncode | format.go:276-336 | every scalar value's encoding is recognised as one sequence, whatever follows, and decodes to that value |
| Utf8.EncodeDecode | format.go:276-336 | a recognised sequence is exactly the encoding of the code point read from it, so no overlong or surrogate form is accepted |
| Utf8.SanitizeValid | format.go:276-336 | replacing every byte that starts no valid sequence gives valid UTF-8, and changes nothing exactly if the input was valid |
| JsonString.AppendJSONString | format.go:276-336 | the run-copying loop appends the quoted bytewise escape of its input |
| JsonString.RoundTrip | format.go:276-336 | decoding the escaped text by section 7 of RFC 8259 gives the input with each byte that starts no valid sequence replaced by one U+FFFD, and the input itself if it is valid; what follows is untouched |
| JsonString.Injective | format.go:276-336 | different valid strings have different encodings |
| JsonString.EscapeSizes | format.go:276-336 | only control characters, DEL, quotes, backslashes and bytes that start no valid sequence change; the five usual escapes take two bytes, all others six, in lower-case hexadecimal |
| JsonString.QuoteClean | format.go:247-252 | for every input the output is valid UTF-8 without a control byte or DEL |
| Json.ParseEmit | format.go:122-171 | the parser reads back every written value with strings cleaned, and leaves what follows it |
| Json.EmitClean | format.go:122-171 | a written value contains no control byte, in particular no newline |
| JsonLine.AppendFieldsJSON | format.go:227-241 | the loop appends the members of the alternating key and value list, an odd last key with an empty value |
| JsonLine.AppendTypedFieldsJSON | format.go:351-367 | the loop appends the members of the non-zero fields, separated by commas wherever zero fields are skipped |
| JsonLine.AppendFieldValueJSON | format.go:370-413 | the value appended is the one that `Reading.ValueReads` reads back |
| JsonLine.FormatJSON | format.go:122-171 | the formatter appends one object with the expected members and a newline; an empty fields object is taken back |
| JsonLine.LineParses | format.go:122-171 | for every entry, prefix and field list the line parses to exactly the expected ordered members, followed by the only newline and no other control byte |
| JsonLine.FilterReservedFields | logger.go:214-235 | the copy-on-first-removal loop drops exactly the pairs with a reserved key |
| JsonLine.FilterKeeps | logger.go:200-235 | the static fields that remain are exactly those with another key, each with its value, in their order |
| JsonLine.BuildJSONPrefix | logger.go:373-386 | the baked prefix is the comma-led text of the members |
| JsonLine.ReservedOnce | logger.go:200-235 | in the parsed line ts, level, type and msg occur once at top level, file and line exactly with a caller, fields at most once, whatever static fields were registered |
| TextLine.AppendText | format.go:177-204 | the run-copying escaper appends the bytewise map of its input |
| TextLine.EscapeConcat | format.go:177-204 | escaping distributes over concatenation |
| TextLine.EscapeIdempotent | format.go:177-204 | escaping twice is escaping once |
| TextLine.AppendFieldsText | format.go:212-224 | the loop appends the pairs of the list with single spaces between them |
| TextLine.AppendTypedFieldsText | format.go:416-432 | the loop appends the non-zero fields with single spaces between them |
| TextLine.FormatText | format.go:78-117 | the formatter appends the whole text line, without a stray space when all fields are zero |
| TextLine.OneNewline | format.go:78-117 | the line has exactly one newline, at its end, if type, keys, file, timestamp and prefix have none; message and values may hold anything |
| TextLine.BuildTextPrefix | logger.go:358-369 | the baked prefix is the text of the pairs, each followed by a space |
| TextLine.PrefixNoNewline | logger.go:358-369 | the baked prefix has no newline if its keys have none, whatever the values |
| Reading.ValueReads | format.go:370-413 | for every field kind the parser reads back the field's own data: the string (errors too) with invalid bytes replaced, the signed or unsigned number, true exactly for 1, NaN and infinities as strings exactly on their bits, the whole number of duration units or else the fraction, the duration in its one text form; null for unknown kinds |
| Reading.LineReads | format.go:122-171 | every JSON line parses to an object with ts, the level's name, type, the caller's file and line number if known, the static fields, msg and the non-zero fields, in this order and with their own values, then a newline and no other control byte |
| Reading.TextShows | format.go:435-462 | for every field kind the text shows the field's own data |
| Reading.TextLineReads | format.go:78-117 | every text line is [ts], the level's name, [type], file:line if known, the static pairs, the message and the non-zero fields, each with its own escaped text, and a newline |
| Duration.AppendDuration | format.go:476-483 | sign and magnitude of every int64 are printed, the minimum included |
| Duration.AppendDurationAbs | format.go:486-531 | every magnitude is printed in its band's unit, with padded milliseconds and without zero components |
| Duration.TextCanonical | format.go:486-531 | every magnitude has one form: whole ns, us or ms below a second; seconds with exactly three fraction digits or none below a minute; from there hours, minutes below 60 and seconds below 60, zero ones omitted |
| Duration.PrintParse | fuzzy_test.go:62-103 | the printed text of every int64 parses to the value truncated to its band's unit, with its sign |
| Duration.TruncateError | fuzzy_test.go:46-57 | truncation loses less than 1ns, 1us, 1ms or 1s by band, turns only zero into zero and stays in its band |
| Duration.PrintMonotone | format.go:486-531 | printing is monotone on non-negative values, seen through the parser |
| Duration.PrintStable | format.go:476-531 | printing what was parsed gives the same text |
| RateLimit.NowWindowExact | ratelimit.go:127-145 | timestamp t falls in window k exactly if start + k*size <= t < start + (k+1)*size, with start 1 and size 1000 when unset; earlier ones fall in window 0, the last window is open-ended, and a difference below the int64 range wraps around |
| RateLimit.WordLayout | ratelimit.go:23-33 | opening a window and counting in it never disturb the other part of the word, and both make it strictly larger |
| RateLimit.AtomicCheckRefines | ratelimit.go:152-185 | the packed check is the check of an unpacked (window, count) limiter, and the word grows exactly when it admits |
| RateLimit.WindowExact | ratelimit.go:160-172 | with non-decreasing clocks every window admits exactly min(calls, limit) and the word holds the last window and its count |
| RateLimit.WindowRunBound | ratelimit.go:160-172 | k+1 consecutive windows admit at most (k+1)*limit |
| RateLimit.IntervalBound | ratelimit.go:57-58 | any half-open span of k configured window lengths (1000 ms if unset) admits at most (k+1)*limit entries, wherever it starts |
| Gates.SubProfile.WithRateLimit | ratelimit.go:76-94 | limit capped to 24 bits, window in whole milliseconds and at least one |
| Gates.CasLoopAtomic | ratelimit.go:152-185 | the loop is one atomic check of the first word that rejects or is still there at its CAS: no installed word is overwritten unseen |
| Gates.SubProfile.CheckAtomicRateLimitAt | ratelimit.go:122-186 | with arbitrary words installed between its loads and CASes, the loop decides and writes as specified for those words, which is one atomic check of a word it found |
| Gates.SubProfile.PassGates | sublogger.go:107-119 | sampling first, then the limiter; result and all gate state are those of the specified gate check with the same words installed by others meanwhile |
| Gates.CheckAtomic | sublogger.go:107-119 | whatever words others install meanwhile, a gate check that reaches the limiter takes effect as one atomic check of a word it found |
| Gates.GateWindow | ratelimit.go:53-94 | on a new profile, of every rate-th call exactly min(calls, limit) pass in each window [start + k*size, start + (k+1)*size) of the clock, with the limit capped at 2^24 - 1 |
| Gates.GateInterval | ratelimit.go:57-58 | any span of k window lengths lets at most (k+1)*limit calls of a profile pass |
| Gates.GateSampling | core.go:26-49 | without a rate limit exactly every rate-th call passes, or every call without sampling |
| Gates.WordGrows | ratelimit.go:152-185 | in every reachable state a step either leaves the word alone or is a successful CAS that makes it strictly larger, so there is no ABA |
| Gates.LimiterSafe | ratelimit.go:122-186 | in every interleaving with arbitrary stale clocks no window, the saturated last one included, admits more than the limit, and a call is rejected only against a full window not older than its own |
| Gates.Linearizable | ratelimit.go:152-185 | replaying the finished calls one at a time through the atomic limiter gives the same answers and the same word, in an order that respects real time: a call decided at some moment stands before every call undecided then |
| Gates.CasBound | ratelimit.go:152-185 | from any point, with any word and history: the n calls under way perform at most n successful and n(n-1)/2 failed CAS operations on every schedule, plus one for each CAS already bound to fail |
| Gates.CasBoundReached | ratelimit.go:152-185 | every state a fresh profile reaches is such a point, and no CAS is bound to fail when no call is between its load and its CAS |
| Gates.GateCount | core.go:26-49 | n finished calls on a fresh profile: floor(n/rate) pass sampling in every interleaving, and with one clock window exactly min(floor(n/rate), limit) are admitted |
| Gates.AloneIsCheck | core.go:26-49 | a call that nobody interleaves with ends as one gate check: the steps of the interleaved machine and the methods of the profile decide and write the same |
| Pipeline.BufferSizes | logger.go:108-122 | after normalisation the channel has a slot and 256 <= FlushThreshold <= WorkerBufferSize; usable settings are kept |
| PipelineSafety.RunInv | worker.go:74-191 | every run keeps: written bytes are the lines flushed, the running worker's buffer is the rest, only it is in the loop |
| PipelineSafety.StreamRefines | worker.go:138-237 | in every run, across restarts, bytes written plus worker buffer are the lines of the received entries in channel order |
| PipelineSafety.OneConsumer | worker.go:92-122 | at most one goroutine is in the worker loop, whatever Start calls overlap |
| PipelineSafety.Accounted | core.go:89-118 | every entry that reached dispatch is in exactly one of written, buffered, queued, dropped and blocked; the drop counter counts exactly the dropped ones |
| PipelineSafety.FateExact | core.go:89-118 | an entry is dropped, and counted, only if it cannot wait on a full channel or its wait times out; it waits only if it may and the channel is full; with room a new or waiting entry goes to the end of the channel |
| PipelineSafety.DropReason | core.go:96-118 | in every run an entry is dropped if and only if one of these two happened to it |
| PipelineSafety.SentReason | core.go:90-104 | in every run an entry is sent if and only if it found room when it was new or while it waited |
| ProducerSteps.TurnIsStep | core.go:89-118 | what a producer's turn promises on pooled entries is what one action of the pipeline does: the same entry sent, dropped and counted, or left waiting |
| PipelineFlush.FlushGuarantee | worker.go:253-284 | when Flush returns through its own done channel everything sent before the call has reached the writer, even after earlier Flush calls timed out |
| PipelineFlush.FlushSendBlocks | worker.go:265-279 | the request send blocks if and only if some Flush timed out whose request no worker has ever received |
| PipelineFlush.FlushCanBlock | worker.go:271-272 | a run in which it blocks while no worker runs |
| PipelineFlush.BlockedWithoutWorker | worker.go:265-279 | from such a state it stays blocked as long as no worker starts |
| PipelineFlush.CloseExact | worker.go:321-346 | when Close returns because the worker stopped: everything sent before is written if the worker had not taken its last look or nothing was queued, and without a new Start only then |
| PipelineFlush.CloseLeavesEntry | worker.go:321-346 | a run in which Close returns and leaves an entry in the channel |
| PipelineFlush.DrainEnds | worker.go:220-237 | a drain loop takes at most 2*(queued + sent meanwhile) + 3 actions |
| PipelineFlush.DrainCanMove | worker.go:170-188 | a draining worker is never stuck |
| PipelineServes.TickWrites | worker.go:158-165 | after a tick everything received has been written, in one write with a rotation check if anything was left |
| PipelineServes.FlushServed | worker.go:253-284 | from every state with a worker in its loop and no Flush request pending, a Flush returns through its done channel with everything sent before it written |
| PipelineServes.FlushStarts | worker.go:253-266 | a request is made exactly when flushMu is free and a worker runs, and it covers everything sent before |
| PipelineServes.CloseServed | worker.go:294-346 | from every state with a worker in its loop, Close stops it and returns with everything sent before it written |
| PipelineServes.CloseStarts | worker.go:294-310 | Close captures the run it waits for and cancels it |
| PipelineServes.OnlyCancelledStop | worker.go:142-145 | in every run only a worker whose context was cancelled leaves its loop |
| PipelineWrites.WritesAreWholeLines | worker.go:197-212 | in every run each write is a non-empty run of whole lines, smaller than FlushThreshold plus the longest line, and the writes in order are everything written |
| PipelineWrites.GenerationBound | worker.go:147-191 | in every run, with any Flush calls, restarts and earlier content, a rotated file had reached MaxFileSize and is smaller than MaxFileSize + FlushThreshold + the longest line + its unchecked bytes |
| PipelineWrites.RotatedSize | worker.go:147-166 | with no effective Flush, one worker run and no rename failure, a file found below MaxFileSize is only rotated smaller than MaxFileSize + FlushThreshold + the longest line |
| PipelineGrowth.RestartGrows | worker.go:220-237 | for any settings and size a run of two workers without Flush in which a rotated file reaches that size |
| PipelineGrowth.FlushGrows | worker.go:170-188 | for any settings and size a run of one worker and one Flush in which a rotated file reaches that size |
| PipelineGrowth.RotatedSizeExact | worker.go:147-237 | for a file found below MaxFileSize, every run with at most so many effective Flush calls and worker runs keeps rotated files below MaxFileSize + FlushThreshold + the longest line if and only if no worker runs, or one does and Flush is not called |
| PipelineDisk.StreamOnDisk | rotate.go:112-182 | every run of the pipeline, on a log with its backups and without rename failures: the files read oldest to newest are a suffix of what was found and the lines written, only whole generations are missing, and each generation is a run of whole lines |
| EntryPool.Entry.Reset | entry.go:29-57 | every field is cleared, large slices are released, and after any use the entry is clean: nothing in use, no string kept alive behind the length |
| EntryPool.ResetKeepsRoom | entry.go:29-57 | up to 4096 message bytes and 64 fields of either kind are kept for reuse, larger slices are released |
| EntryPool.FillExact | core.go:149-158 | a filled entry shows exactly the call if and only if the list of the other API was empty |
| EntryPool.ReuseInvisible | entry.go:18-57 | after any history of string-field and typed calls on one entry the next call shows as in a new entry |
| EntryPool.CallShown | format.go:29-34 | with JSONOutput the line of a call parses to an object that shows the call and its profile's fields, else it is a text line that shows them; either way it ends with a newline |
| EntryPool.FormatEntryAt | format.go:29-34 | the line appended for an entry shows its call in the configured format |
| EntryPool.System.Acquire | core.go:149-149 | a producer gets a pooled or a new entry, clean and nobody else's |
| EntryPool.System.Fill | core.go:195-202 | filling changes only the producer's own entry, which then shows the call |
| EntryPool.System.TrySend | core.go:90-96 | an attempt to send puts the entry at the end of the channel, or changes nothing if it is full, so that an ERROR entry can wait with its producer |
| EntryPool.System.Drop | core.go:109-118 | the entry is counted as dropped and returns to the pool clean |
| EntryPool.System.Dispatch | core.go:90-118 | without waiting: a full channel drops, counts and recycles the entry; otherwise it goes to the end of the queue; every entry keeps one owner |
| EntryPool.System.Attempt | core.go:89-118 | a producer's whole turn, from acquiring on: its call joins the end of the channel if there is room, else its entry waits or is dropped; no entry is lost, and a drop is counted and recycled |
| EntryPool.System.FormatNext | format.go:45-50 | the line depends on the arguments of the oldest queued call alone, and its entry returns to the pool clean |
| EntryPool.System.FormatBatch | format.go:45-63 | whatever producers acquire, fill, send, keep waiting or drop between its receives: exactly the lines of the oldest calls queued or arrived, each showing its call, as few as fill the batch of 128, reach FlushThreshold or empty the channel; no entry is lost, and only those taken or dropped go to the pool |
| Worker.Worker.OnEntry | worker.go:147-156 | whatever producers do meanwhile: one batch is taken, in channel order; from FlushThreshold on all of it is written with a rotation check, below it is all buffered |
| Worker.Worker.OnTick | worker.go:158-165 | a non-empty buffer is written and the rotation check made; an empty one changes nothing |
| Worker.Worker.Drain | worker.go:220-237 | the drain loop, also that of a Flush request, leaves channel and buffer empty and has appended buffer and the lines of all calls queued or sent meanwhile, in order, to the log file, without a rotation |
| WorkerSteps.BatchIsSteps | worker.go:147-188 | in every state that runs keep to, with anything done by others between its receives: a batch of the loop or of a drain ends in the pipeline exactly where the methods end theirs, having taken as many entries and written or buffered the same text with the same check |
| WorkerSteps.BatchHasRun | worker.go:147-188 | every batch the methods allow, with calls sent in its gaps, is such a run of the pipeline |
| Rotation.RotationKeepsOrder | rotate.go:112-182 | whatever renames fail, surviving generations stay newest first along live, .rotating, .1 ... .max(1,N), and the truncating open never meets an existing file |
| Rotation.RotationOnlyOld | rotate.go:112-182 | a rotation changes the bytes of no surviving generation |
| Rotation.RotationCount | rotate.go:139-163 | one rotation loses at most one generation plus one per failed rename |
| Rotation.RunKeeps | rotate.go:112-182 | over any run of appends and failing rotations the order holds and the lost generations are at most rotations plus failed renames |
| Rotation.RotationExact | rotate.go:144-160 | without failures the live generation becomes .1, every backup moves up and only the one beyond max(1,N) goes |
| Rotation.RotationAt | rotate.go:112-182 | every file after a rotation, whatever renames fail: each generation at the next name, or left in place if its rename fails and nothing replaces it; .rotating stays when it cannot become .1 |
| Rotation.RotationFailsExact | rotate.go:135-160 | each file whose rename fails is counted once, and a live log that cannot be moved ends the rotation |
| Rotation.StreamConserved | rotate.go:112-182 | started on a log with its backups and without failures, the files hold exactly the last 1 + min(g-1, max(1,N)) of all g generations |
| Rotation.DiskIsSuffix | rotate.go:112-182 | read oldest to newest the files are a suffix of everything found and written, and what is missing is the generations beyond max(1,N) |
| Rotation.SplitConserves | rotate.go:49-61 | the generations in order are everything written, each made of whole writes, so no line is split |
| Rotation.GenerationSize | rotate.go:49-61 | for any checked and unchecked writes in any order: a rotated generation had reached MaxFileSize and is smaller than MaxFileSize plus the largest checked write plus its unchecked bytes; the live one is smaller than MaxFileSize plus its unchecked bytes |
| Rotation.RotatedChecked | rotate.go:49-61 | if unchecked writes come last and the file is found below MaxFileSize, no rotated generation has unchecked bytes that count |
| Rotation.UncheckedRotate | worker.go:220-237 | any unchecked writes before a checked one are rotated together with it, as one generation of all their bytes |
| Rotation.LogFile.ShiftBackups | rotate.go:144-154 | the countdown loop performs the shift and counts exactly the failing renames |
| Rotation.LogFile.RotateLogFile | rotate.go:112-182 | rotates exactly at MaxFileSize, files and error counter as specified, and keeps appending when the live log cannot be moved |
| Rotation.LogFile.WriteChecked | rotate.go:49-61 | a checked write appends and then rotates exactly if the file has reached MaxFileSize |
| Durability.SyncLog.BufioWrite | core.go:248-296 | the fill-and-flush loop puts the bytes where the specified buffer does |
| Durability.SyncLog.SyncWrite | core.go:227-309 | one call changes file, synced length, buffer and counters as its tier specifies |
| Durability.SyncLog.SyncFlush | core.go:341-354 | Flush writes the buffer out and fsyncs for FsyncEveryN |
| Durability.CrashSurvivors | config.go:49-91 | after any calls a process crash leaves a prefix of the stream (all of it for the unbuffered tiers) and power loss a prefix of that (all of it for FsyncEveryWrite) |
| Durability.FlushEmpties | core.go:341-354 | after Flush nothing is in process memory, in every tier; it fsyncs for FsyncEveryN, except standard error, and for no other tier |
| Durability.EveryNBound | core.go:277-296 | FsyncEveryN: power loss between calls loses at most the last N-1 lines |
| Durability.EveryNExact | core.go:277-296 | after n calls without Flush exactly the first N*floor(n/N) lines are fsynced |
| Durability.UnsyncedExact | config.go:77-80 | FsyncEveryN, after any calls: the entries since the last fsync are exactly what is in process memory if and only if together they fit the buffer |
| Durability.UnsyncedInPageCache | config.go:77-80 | two lines that each fit the buffer but not together leave their first 65536 bytes in the page cache, unsynced |
| Durability.OSBufferedFlushes | core.go:248-272 | one call: ten milliseconds after the recorded flush it flushes; otherwise room for as much again is left |
| Durability.OSBufferedExact | core.go:248-272 | in every run a log call leaves everything logged so far in the file if the buffer has less room than its line or 10 ms have passed since the last call that did so returned (or the logger was created); any other call keeps a line that fits in the buffer |
| Durability.NeverSynced | config.go:49-91 | OSBuffered and Direct never fsync |
| Durability.SyncedOnReturn | core.go:298-301 | in every interleaving of concurrent FsyncEveryWrite calls a line is in the synced part once its own fsync is done |
| Registry.LookupIsScan | logger.go:396-415 | the map and the linear scan give the same answer |
| Registry.GetAfterRegister | logger.go:278-353 | registering changes the answer for one name only |
| Registry.RegisterKeepsOk | logger.go:278-353 | names stay distinct, and the map is there exactly above 8 names and agrees with the arrays |
| Registry.RefinesMap | logger.go:243-353 | after any registrations a lookup returns the last profile registered for the name or the default, and the names are exactly those registered, once each |
| Profiles.Logger.GetProfile | logger.go:396-415 | the lookup as programmed, with map or loop, is the specified one |
| Profiles.Logger.BuildProfile | logger.go:244-273 | the last option of each kind wins, limit and window included; prefixes are baked from the unreserved static fields; gate state starts at zero |
| Profiles.LastWins | logger.go:244-273 | the last sampling rate, limit, window and field list given are the profile's: limits between 0 and 2^24 - 1, windows in whole milliseconds and at least one |
| Profiles.UnsetWithout | logger.go:244-273 | without an option of its kind there is no sampling, no limit and no static field |
| Profiles.Logger.Publish | logger.go:278-353 | the new snapshot is the specified one in fresh arrays; of everything that existed only the registry pointer changes, so published snapshots never do |
| Profiles.Logger.RegisterSub | logger.go:243-354 | builds the profile and publishes it |
| Profiles.Logger.Sub | sublogger.go:33-38 | registers with options or for an unknown type, else reuses the profile and changes nothing; returns what a lookup then finds |
| Profiles.Logger.CheckGatesAfterLevel | core.go:26-49 | the log-type path makes the decision that passGates makes for the profile it finds on the same interfering words, and leaves the same gate state |
| Slog.AppendSlogValue | loggerj_slog.go:176-237 | exactly the leaves of the value tree in depth-first order, each under its non-empty path segments joined with dots, and only if that key is not empty |
| Slog.KeyNest | loggerj_slog.go:191-200 | joining keys level by level gives the join of the whole path |
| Slog.KeyTwo | loggerj_slog.go:191-200 | two parts are joined with a dot, and an empty one is left out |
| Slog.Handler.AppendAttr | loggerj_slog.go:149-168 | an attribute's fields stand under the handler's group; one without a key is inlined without the group |
| Slog.Handler.WithAttrs | loggerj_slog.go:106-121 | the new handler carries the old fields first, then the added ones under the group in force |
| Slog.Handler.WithGroup | loggerj_slog.go:132-144 | the group is the dotted join; an empty name changes nothing |
| Slog.Handler.RecordFields | loggerj_slog.go:68-77 | the carried fields come before the record's own |
| Slog.DeriveAll | loggerj_slog.go:106-144 | any chain of WithAttrs and WithGroup carries earlier attributes first, each under the groups in force when it was added |
| Slog.Logged | loggerj_slog.go:58-92 | what one record logged through any derived handler becomes: carried fields, its own under the groups in force, identifiers of its context |
| Slog.ChainIsTree | loggerj_slog.go:98-144 | with keyed attributes, a record logged through any derived handler has the fields of one tree, in which attributes added later stand inside the groups opened before |
| Slog.ContextMembers | api.go:143-157 | the present identifiers are logged as trace_id, request_id and span_id, in this order |
| Slog.GroupReaches | loggerj_slog.go:149-168 | the group reaches the leaves of an attribute if and only if it has a key, there is no group or there are no leaves |
| Slog.LeavesReachLine | loggerj_slog.go:210-237 | no leaf of any value tree is lost on the way to the JSON line: none of its fields counts as a zero field, and numbers keep their sign |
| Slog.LeavesShown | loggerj_slog.go:210-237 | a reader of the line finds every leaf of a value, in depth-first order, under its dotted key and with its own value, floats and durations included |

## Left out

- Clocks, timers and tickers: time is an argument or an arbitrary step, timeouts are arbitrary steps.
- Write errors and failed re-opening after a rotation: the writer never fails; only renames do. Files deleted or renamed by others are not modelled.
- Rotation.StreamConserved: the backups found at the start are without gaps and none beyond max(1,N), as rotations without failures leave them.
- Custom writers of StartWithWriter together with rotation.
- Drop counts by level and the OnDrop callback: only the total is modelled.
- Durability.UnsyncedExact: a standard error sync file, whose buffer Flush writes out without an fsync.
- Float text and `time.Format`: `strconv.AppendFloat` is an arbitrary function to JSON numbers, a formatted timestamp is assumed to need no escaping.
- The float arithmetic with which `time.ParseDuration` reads fractions: the parser here computes them exactly.
- Arrays and white space in the JSON parser: the formatter writes neither.
- Decoding of text lines: backslashes are not escaped there, so no round trip exists.
- `runtime.Caller`, `unsafe` conversions, eviction from `sync.Pool`, `Gosched` backoff and allocation counts: no functional contract.
- Sharing of backing arrays between slices: the slices of an entry are values with their spare capacity, so that a caller's later writes to its own message are invisible by construction.
- The pointer from an entry to its profile: an entry holds the static fields its prefixes were baked from, which never change after registration.
- Worker.Worker.Drain: the writer is the log file, without the bufio.Writer that writeOut flushes at once; the producers' turns are a finite list, as the loop may never end otherwise (`PipelineFlush.DrainEnds`).
- EntryPool.System.Dispatch: the waiting of ERROR entries is not in this method but between `TrySend` and a later `TrySend` or `Drop`.
- Profiles.Logger.RegisterSub: the registration mutex is modelled by making each call one step; Config.RateLimitWindow cannot matter, because WithRateLimit always sets a window.
- Profiles.Logger.BuildProfile: the warnings about reserved keys on standard error.
- Slog.AppendSlogValue: LogValuers resolve to a value; the limit of 100 resolution steps and the time and string conversions of slog are not modelled.
- The rest of the public API, level mapping, most configuration defaults, benchmarks and tools: thin wrappers or no contract.
