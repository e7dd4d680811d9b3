# Verification of mcproc's core

mcproc is a daemon that runs development processes, captures what they print
into log files, serves those logs, and answers MCP requests. This project
models the parts of it whose correctness is not visible in any one function
and proves what they promise. Run it with `dafny verify dfyconfig.toml`.

**Logs, from the process to the reader.** `LineSplitting` says what the lines
of a byte stream are. `LineCapture` and `HyperLogStreamer` cover the capture
side: chunks of any size are cut into lines through a carry-over buffer,
oversized unterminated lines are forced out, lines are tested, written and
published in batches. `BatchWriter` is the queue, batch and file of one stream;
`SharedLogFile` lets the stdout and the stderr writer of a process race on one
file. `RecordFormat` is the printer and the parser of a log record, `LogReader`
the line reader and the tail, `LogGrep` the streaming search. `LogPipeline`
composes them: for any output, any chunking that splits no line and any
interleaving of the two writers, a tail shows each stream's lines, in order, at
the right level and under consecutive numbers. `LogAgreement` compares what a
tail and a search of one file say, and `WriterRefinement` shows that the writer
of `BatchWriter` takes the steps of `SharedLogFile`. `WaitForLog` is the one-shot
handshake that tells a start that a line has matched.

**Processes.** `ProcessRegistry` holds the two registry maps, the reservation
guard, the lookups and a start on its own; `NameOwnership` runs any number of
starts, stops, restarts and cleans against those maps, one map operation at a
time. `ProcessStatus` has the writers of the status byte, `StopProtocol` the
timed stop, `ShellQuoting` and `LaunchCommand` the command line that is
launched, `ProcessTree` the search for child processes.

**The MCP server.** `JsonRpc` dispatches nested batches, `ServerLoop` is the
event loop with its bounded queue and drain phase.

Components that change state are classes with methods proved against
functions of the old state; concurrent ones are transition systems in which one
step is one lock, one map operation or one write, and theorems hold for every
run. `Sequences` and `Integers` are shared vocabulary.

## What the proofs turned up

- A line longer than 1 MiB may be cut in two. The entries are the lines of the
  output if and only if no forced flush is followed by more output
  (`LineCapture.CaptureExact`); a forced flush of the very last bytes does no
  harm. Which outputs are safe in any chunks is exact to the byte
  (`LineCapture.AlwaysExactIffFits`).
- The newline repair of a log file is a check and a write. Both writers of a
  process can find the same unterminated file and both repair it, which leaves
  a blank line: possible exactly when the file needed the repair
  (`SharedLogFile.RepairRaceExact`), at most once, and visible to readers as one
  empty line of stdout and in no other way (`LogPipeline.StreamsRoundTrip`). So
  readers are sure to see stdout exactly if and only if the file was empty or
  terminated when it was opened (`LogPipeline.StdoutExactIffTerminated`). No
  record is ever glued to a partial line.
- The end of either stream closes the ready channel, although the other stream
  may still be open. A start that waits for a log line can therefore stop
  waiting too early, without any timeout, exactly when one of the two streams
  carries no matching line (`WaitForLog.CanMissExact`).
- A terminal status can be overwritten: a sync that has read Starting may write
  Running after the monitor has written Stopped (`ProcessStatus.TerminalStatusOverwritten`).
  `ProcessStatus.VerdictFinalExact` says exactly when the monitor's verdict is final, and
  `ProcessStatus.OnePassSettles` that one later sync repairs the status for good.
  In the same way a clean exit can end up as Failed (`ProcessStatus.CleanExitReadsFailed`),
  and that no sync corrects (`ProcessStatus.FrozenForGood`).
- Without a project, a lookup by name takes whichever entry the map yields
  first; the answer is independent of that exactly when an id decides it or at
  most one process has the name (`ProcessRegistry.NameLookupExact`).
- The queued dispatcher returns no notification of any member of a batch
  (`JsonRpc.QueuedNotesExact`, `JsonRpc.DroppedInBatch`), and leaves its own
  queue behind as the active sender (`JsonRpc.Protocol.HandleMessage`).
- The client's stop deadline covers the server's longest stop except for grace
  periods in one window at the very end of the `u64` range, where the client's
  sum saturates and the server's does not yet wrap; there some stops succeed
  only after the client has given up (`StopProtocol.LongestStop`).
- `LogEntry.line_number` is 32 bits wide, so in files of more than 2^32 lines, and
  only there, a search and a tail can show different lines under one number
  (`LogAgreement.TailAgreesExact`).

## Model

| member | source | states |
|---|---|---|
| `LineSplitting.SplitRejoins` | mcproc/src/daemon/process/hyperlog.rs:297-299 | Cutting a stream at its line feeds loses, adds and reorders no byte |
| `LineSplitting.SplitUnique` | mcproc/src/daemon/process/hyperlog.rs:297-299 | The cut is the only one: any terminated lines and unterminated rest that join to the stream are its own lines and rest |
| `LineSplitting.SplitAppend` | mcproc/src/daemon/process/hyperlog.rs:292-299 | Cutting may be done chunk by chunk, carrying over only the unterminated rest |
| `LineSplitting.AllLinesAreLines` | mcproc/src/daemon/process/hyperlog.rs:248-253 | With the line feed added at the end of the stream every line has exactly one, at its end |
| `LineCapture.CarriedRestBounded` | mcproc/src/daemon/process/hyperlog.rs:390-400 | After any chunks the line buffer holds no line feed and at most 1 MiB |
| `LineCapture.EntrySizeBounded` | mcproc/src/daemon/process/hyperlog.rs:83-111 | With reader chunks of at most 8192 bytes no entry exceeds 1 MiB + 8193 bytes |
| `LineCapture.EntriesAreLines` | mcproc/src/daemon/process/hyperlog.rs:292-420 | Every entry, forced and last ones included, is one line: a single line feed, at its end |
| `LineCapture.CaptureConserves` | mcproc/src/daemon/process/hyperlog.rs:292-420 | The entries without the added line feeds, joined, are the output byte for byte, for every chunking |
| `LineCapture.FeedAllAppend` | mcproc/src/daemon/process/hyperlog.rs:274-292 | Processing chunks in two batches gives the entries and the rest of processing them in one |
| `LineCapture.CaptureCount` | mcproc/src/daemon/process/hyperlog.rs:389-419 | Every forced flush that is followed by more output adds exactly one entry to the lines of the output |
| `LineCapture.CaptureExact` | mcproc/src/daemon/process/hyperlog.rs:389-419 | The entries are the lines of the output if and only if no forced flush is followed by more output |
| `LineCapture.AlwaysExactIffFits` | mcproc/src/daemon/process/hyperlog.rs:389-419 | An output is captured line by line in every sequence of chunks the reader can deliver if and only if no line with its line feed, and no unterminated rest, exceeds 1 MiB and one byte |
| `LineCapture.LongLineSplit` | mcproc/src/daemon/process/hyperlog.rs:389-419 | 129 full chunks and one more byte are one line of output and two entries |
| `LineCapture.ChunkingIrrelevant` | mcproc/src/daemon/process/hyperlog.rs:292-420 | Any two chunkings of one output that split no line give the same entries |
| `LineCapture.ShortLinesNeverSplit` | mcproc/src/daemon/process/hyperlog.rs:17 | An output without lines over 1 MiB is never split, whatever the chunking |
| `LineCapture.LongLineAlwaysSplit` | mcproc/src/daemon/process/hyperlog.rs:389-419 | A line that outgrows the buffer by more than one chunk is split in every chunking |
| `HyperLog.HyperLogStreamer.DrainCompleteLines` | mcproc/src/daemon/process/hyperlog.rs:297-385 | The inner loop writes, tests and collects exactly the complete lines of the buffer, in order, and leaves the rest |
| `HyperLog.HyperLogStreamer.ProcessChunk` | mcproc/src/daemon/process/hyperlog.rs:292-420 | One chunk: its complete lines, then the forced flush of an oversized rest, which is written and published but not tested |
| `HyperLog.HyperLogStreamer.Publish` | mcproc/src/daemon/process/hyperlog.rs:422-434 | Publishing in groups of ten publishes every line once, in order |
| `HyperLog.HyperLogStreamer.ProcessBatch` | mcproc/src/daemon/process/hyperlog.rs:274-435 | A batch empties itself and adds to file, tests and hub what its chunks contribute, hub lines restricted to valid UTF-8 and trimmed |
| `HyperLog.HyperLogStreamer.FlushAtEof` | mcproc/src/daemon/process/hyperlog.rs:248-253 | The left-over rest, given a line feed and sent through the ordinary path, becomes the last entry and is tested |
| `HyperLog.HyperLogStreamer.TakeEvent` | mcproc/src/daemon/process/hyperlog.rs:158-246 | A round takes a chunk into the batch, keeps the batch below four chunks, and leaves nothing in it when the timer has fired |
| `HyperLog.HyperLogStreamer.Run` | mcproc/src/daemon/process/hyperlog.rs:158-253 | For every sequence of chunks and timer wake-ups, what is written, tested and published is a function of the chunks alone |
| `HyperLog.ChunksExact` | mcproc/src/daemon/process/hyperlog.rs:175-246 | The chunks that count are those the reader delivered, all of them, in order; the batch timer adds none |
| `RecordFormat.ParseUndoesPrefix` | mcproc/src/daemon/api/grpc/log_handlers.rs:315-347 | Parsing a printed record gives back its time to the millisecond, its level and its content, even where the content itself looks like a level or a timestamp |
| `RecordFormat.ParsePlain` | mcproc/src/daemon/api/grpc/log_handlers.rs:315-347 | A line without a space is content as a whole, with no time; behind a first word that no level follows, the rest is the content, and the first word the time if it is one |
| `RecordFormat.RecordIsLine` | mcproc/src/daemon/log/batch_writer.rs:151-166 | A record with a one-line content is exactly one line of the file |
| `RecordFormat.FormatAllAppend` | mcproc/src/daemon/log/batch_writer.rs:148-169 | Formatting batch after batch equals formatting everything at once |
| `BatchWriter.BatchLogWriter.constructor` | mcproc/src/daemon/log/batch_writer.rs:75-90 | Opening appends a line feed exactly when the file is not empty and does not end in one |
| `BatchWriter.BatchLogWriter.WriteRecord` | mcproc/src/daemon/log/batch_writer.rs:54-59 | A record is accepted at the end of the queue unless the channel is full |
| `BatchWriter.BatchLogWriter.FlushBatch` | mcproc/src/daemon/log/batch_writer.rs:141-172 | The whole batch goes to the end of the file in one write, formatted and in order |
| `BatchWriter.BatchLogWriter.FormatBatch` | mcproc/src/daemon/log/batch_writer.rs:148-166 | The buffer built entry by entry is the formatted batch |
| `BatchWriter.BatchLogWriter.AppendEntry` | mcproc/src/daemon/log/batch_writer.rs:151-166 | One entry is appended as timestamp, level, content and a line feed where the content lacks one |
| `BatchWriter.BatchLogWriter.ReceiveRecord` | mcproc/src/daemon/log/batch_writer.rs:103-112 | Receiving keeps everything accepted accounted for and the batch below 100 records |
| `BatchWriter.BatchLogWriter.Shutdown` | mcproc/src/daemon/log/batch_writer.rs:113-118 | After the channel is closed nothing is left in queue or batch, and the file is the repaired initial file and all accepted records |
| `BatchWriter.BatchLogWriter.NothingLost` | mcproc/src/daemon/log/batch_writer.rs:101-128 | At any moment file, then batch, then queue make up the repaired initial file and all accepted records, in order |
| `BatchWriter.BatchLogWriter.Handle` | mcproc/src/daemon/log/batch_writer.rs:101-128 | A round accepts the record of a write, takes one record out of the queue, or on a tick writes out the whole batch |
| `BatchWriter.BatchLogWriter.Run` | mcproc/src/daemon/log/batch_writer.rs:101-138 | For every schedule of writes, receives and timer ticks the final file holds exactly the written records |
| `BatchWriter.WritesExact` | mcproc/src/daemon/log/batch_writer.rs:54-59 | The records that count are those of the write events, all of them, in order |
| `SharedLogFile.RunKeepsInv` | mcproc/src/daemon/process/manager.rs:229-271 | In every interleaving of two writers the file is its initial content and whole pieces, and each stream is in the file, the batch, the queue or to come, in order |
| `SharedLogFile.FinishedStreams` | mcproc/src/daemon/log/batch_writer.rs:141-172 | When both writers are done, selecting one level from the file gives that stream exactly |
| `SharedLogFile.RunKeepsLineSafe` | mcproc/src/daemon/log/batch_writer.rs:82-90 | A file that ends in mid-line gets a line feed before anything else, so no record joins a partial line |
| `SharedLogFile.AtMostTwoRepairs` | mcproc/src/daemon/log/batch_writer.rs:82-90 | No run repairs the file more than twice, or at all when it is empty or terminated |
| `SharedLogFile.MaximalRunFinishes` | mcproc/src/daemon/log/batch_writer.rs:101-128 | Every interleaving ends, within a number of steps fixed by the records, and one that cannot go on has written everything |
| `SharedLogFile.RacingRepairs` | mcproc/src/daemon/log/batch_writer.rs:82-90 | Two writers can both repair one file, adding a blank line |
| `SharedLogFile.RepairRaceExact` | mcproc/src/daemon/log/batch_writer.rs:82-90 | A superfluous line feed is possible if and only if the file needed the repair |
| `WriterRefinement.OpenRuns` | mcproc/src/daemon/log/batch_writer.rs:75-90 | Opening a file is the check and the repair of the two-writer system |
| `WriterRefinement.WriteRuns` | mcproc/src/daemon/log/batch_writer.rs:54-59 | Accepting a record is one step of the two-writer system, and waiting is none |
| `WriterRefinement.ReceiveRuns` | mcproc/src/daemon/log/batch_writer.rs:103-112 | Receiving a record is one step of the two-writer system, or two when it fills the batch, appending the same bytes |
| `WriterRefinement.TickRuns` | mcproc/src/daemon/log/batch_writer.rs:121-126 | A timer tick is the flush step of the two-writer system, appending the same bytes |
| `LogReader.LineReader.NextLineLossy` | mcproc/src/daemon/api/grpc/log_handlers.rs:511-528 | Yields the lines of the file one by one, without the line feed and one carriage return, and None exactly at the end |
| `LogReader.LineReader.StripLineEnd` | mcproc/src/daemon/api/grpc/log_handlers.rs:521-526 | The two pops remove a line feed, then one carriage return |
| `LogReader.StripEndExact` | mcproc/src/daemon/api/grpc/log_handlers.rs:521-526 | LF, CR LF, and a CR at the end of the file, are taken off a line, and nothing else is |
| `LogReader.TailLogLines` | mcproc/src/daemon/api/grpc/log_handlers.rs:530-556 | The bounded deque holds exactly the last min(tail, total) lines and the index of the first one; with tail 0, none and the total |
| `LogReader.NumberLines` | mcproc/src/daemon/api/grpc/log_handlers.rs:157-167 | Each line is parsed and numbered by its place in the file, counted from 1, modulo 2^32 |
| `LogReader.TailEntries` | mcproc/src/daemon/api/grpc/log_handlers.rs:147-181 | A tail request shows the last min(asked, 10000, total) lines, 100 being asked for by default: each entry has the time, level and content of its line, and as its number the count of lines of the file up to and including it |
| `LogReader.LinesUpTo` | mcproc/src/daemon/api/grpc/log_handlers.rs:511-528 | Reading the file only up to the end of its i-th line gives its first i lines |
| `LogReader.ShownNumber` | mcproc/src/daemon/api/grpc/log_handlers.rs:162 | In a file of fewer than 2^32 lines the number shown with a line is the count of lines up to and including it: 1 for the first, the total for the last |
| `LogGrep.PositionsExact` | mcproc/src/daemon/api/grpc/log_handlers.rs:667 | The positions of a search are increasing and exactly the places of the selected lines that match |
| `LogGrep.AdvancePending` | mcproc/src/daemon/api/grpc/log_handlers.rs:640-645 | The current line is appended to every pending match that still wants lines, and to no other |
| `LogGrep.MoveCompleted` | mcproc/src/daemon/api/grpc/log_handlers.rs:648-660 | Removing while iterating moves exactly the completed matches, in order, and keeps the others in order |
| `LogGrep.LineStep` | mcproc/src/daemon/api/grpc/log_handlers.rs:640-660 | One more line keeps the invariant of the search, and at most one match, the oldest, completes |
| `LogGrep.OnlyOldestCompletes` | mcproc/src/daemon/api/grpc/log_handlers.rs:648-660 | Pending matches finish in the order they were found, at most one per line |
| `LogGrep.NewMatchPends` | mcproc/src/daemon/api/grpc/log_handlers.rs:667-679 | A matching line becomes pending with its full before-context |
| `LogGrep.SlideWindow` | mcproc/src/daemon/api/grpc/log_handlers.rs:682-687 | The before-buffer is always the last lines before the current one |
| `LogGrep.EarlyStop` | mcproc/src/daemon/api/grpc/log_handlers.rs:662-664 | Returning at 1000 completed matches gives the complete answer: all of them have their whole context |
| `LogGrep.Finalize` | mcproc/src/daemon/api/grpc/log_handlers.rs:691-702 | At the end of the file the pending matches fill the answer up to 1000, with the context there is |
| `LogGrep.PendingBounded` | mcproc/src/daemon/api/grpc/log_handlers.rs:603-606 | The search never holds more than max(1, after) pending matches |
| `LogGrep.SearchLines` | mcproc/src/daemon/api/grpc/log_handlers.rs:608-702 | The loop over the lines of an open file keeps window, pending matches and results, and ends with the exact answer |
| `LogGrep.GrepLogFile` | mcproc/src/daemon/api/grpc/log_handlers.rs:588-703 | The streaming search returns exactly the first 1000 matching lines among those without a time or in the range, in file order, each with its last `before` and next `after` neighbours among them; every entry shows a line of the file under the count of lines up to it |
| `LogGrep.GrepLogs` | mcproc/src/daemon/api/grpc/log_handlers.rs:350-389 | A request fails for a missing file, an unreadable time or a bad pattern, in that order; otherwise it is answered exactly, with `before` and `after` taken from their own fields or from `context`, 3 by default, and at most 1000. Nothing reported has a time outside the range, and with fewer than 1000 matches every matching line of the range is one |
| `LogGrep.SelectedExact` | mcproc/src/daemon/api/grpc/log_handlers.rs:613-630 | A line takes part in a search if and only if it has no time, or its time is not before a given start and not after a given end; the lines that do keep file order |
| `LogGrep.AnswerExact` | mcproc/src/daemon/api/grpc/log_handlers.rs:608-703 | The search over the selected lines, said of the file: which lines are hits, and which lines of the file each entry of their contexts shows |
| `LogGrep.ReportedInRange` | mcproc/src/daemon/api/grpc/log_handlers.rs:614-627 | Every entry a search reports, match or context, has no time or one in the range |
| `LogGrep.FewMatchesAreAll` | mcproc/src/daemon/api/grpc/log_handlers.rs:662-702 | With fewer than 1000 matches every matching line that takes part is reported |
| `LogReader.LineNumbersIdentifyExact` | mcproc/src/daemon/api/grpc/log_handlers.rs:162 | The 32-bit line numbers tell the lines of a file apart if and only if it has at most 2^32 lines |
| `LogAgreement.TailAgreesWithGrep` | mcproc/src/daemon/api/grpc/log_handlers.rs:608-637 | Entries that a tail and a search show under one number belong to lines a multiple of 2^32 apart, so up to 2^32 lines they are the same line with the same time, level and content |
| `LogAgreement.TailAgreesExact` | mcproc/src/daemon/api/grpc/log_handlers.rs:608-637 | Among the files of n lines there is one where a search and a tail show different entries under one number if and only if n is more than 2^32 |
| `LogPipeline.CaptureRecords` | mcproc/src/daemon/process/hyperlog.rs:363-379 | Whatever chunks and wake-ups the processor sees, one record per captured entry is handed to the writer, in order |
| `LogPipeline.StdoutCount` | mcproc/src/daemon/log/batch_writer.rs:82-90 | Of any pieces behind the old lines, stdout shows one line for each stdout record and one for each line feed of a repair |
| `LogPipeline.RecordRoundTrip` | mcproc/src/daemon/log/batch_writer.rs:151-166 | Printing a record, reading its line and parsing it gives its time to the millisecond, its level and its content minus the line end |
| `LogPipeline.FileRoundTrip` | mcproc/src/daemon/api/grpc/log_handlers.rs:511-556 | A file of whole records, and of line feeds of a repair, reads back as its old lines and then one line for each |
| `LogPipeline.StreamsRoundTrip` | mcproc/src/daemon/process/manager.rs:236-271 | Captured in any chunks and written in any interleaving, the old lines are untouched and stderr reads back as the entries captured from it; stdout does if and only if the file was repaired at most once, and otherwise has one empty line more |
| `LogPipeline.RacingRunFinishes` | mcproc/src/daemon/log/batch_writer.rs:82-90 | For every unterminated file some run repairs it twice and then writes everything |
| `LogPipeline.StdoutExactIffTerminated` | mcproc/src/daemon/log/batch_writer.rs:82-90 | A reader is sure to see stdout exactly, however the writers interleave, if and only if the file was empty or ended in a line feed when it was opened |
| `LogPipeline.RepairKeepsLines` | mcproc/src/daemon/log/batch_writer.rs:82-90 | The newline repair of a file changes none of the lines a reader sees |
| `LogPipeline.OutputRoundTrip` | mcproc/src/daemon/process/hyperlog.rs:292-385 | Where no line was split, what reads back at each level is the output of that stream, line by line, up to the empty line of a second repair in stdout |
| `LogPipeline.TailRecoversOutput` | mcproc/src/daemon/api/grpc/log_handlers.rs:157-167 | A tail over the new lines shows each stream's output at its level, up to the empty line of a second repair in stdout; each entry has as its number the count of lines of the file up to and including it |
| `WaitForLog.RunKeepsInv` | mcproc/src/daemon/process/hyperlog.rs:301-361 | In every interleaving of two readers, timeouts, ends and the waiter: at most one signal, and a stored line always matches |
| `WaitForLog.SignalMeansMatch` | mcproc/src/daemon/process/hyperlog.rs:323-352 | When the waiter has the signal the flag is set and a matching output line is stored, also after the other stream overwrites it |
| `WaitForLog.SenderGoneForGood` | mcproc/src/daemon/process/hyperlog.rs:63-71 | Once a timeout, an end of stream or a match has taken the sender, no signal is ever sent |
| `WaitForLog.EndedStreamsDecide` | mcproc/src/daemon/process/hyperlog.rs:255-260 | When both streams have ended the sender is gone, the waiter is not left hanging and the flag tells exactly whether any line matched |
| `WaitForLog.DecidedForGood` | mcproc/src/daemon/process/hyperlog.rs:170-246 | Once a match is recorded and nobody is about to store one, the stored line stays; once a match is recorded or time is up, and no timer is enabled, none ever fires |
| `WaitForLog.TimeoutDropsSender` | mcproc/src/daemon/process/hyperlog.rs:51-72 | A timer that fires marks the timeout, and the next step of that reader, the only one it has, drops the sender |
| `WaitForLog.TimerCanFire` | mcproc/src/daemon/process/hyperlog.rs:170-246 | A reader that waits for output while nothing has matched and time is not up can time out |
| `WaitForLog.ReaderCanGoOn` | mcproc/src/daemon/process/hyperlog.rs:158-260 | Whatever the others do, a reader that has not ended can take a step that brings it nearer to its end |
| `WaitForLog.CanMissExact` | mcproc/src/daemon/process/hyperlog.rs:255-260 | The wait can end without a timeout and before a match exactly when one of the streams has no matching line |
| `ProcessRegistry.Registry.AddProcess` | mcproc/src/daemon/process/registry.rs:23-25 | Registers the process under its id and changes nothing else |
| `ProcessRegistry.Registry.RemoveProcess` | mcproc/src/daemon/process/registry.rs:28-33 | Removes the entry and releases its own name exactly when there was an entry |
| `ProcessRegistry.Registry.TryReserveName` | mcproc/src/daemon/process/registry.rs:35-43 | Succeeds exactly when the name was free, and then holds it |
| `ProcessRegistry.Registry.ReleaseName` | mcproc/src/daemon/process/registry.rs:45-47 | Frees that name only |
| `ProcessRegistry.NameReservation.Drop` | mcproc/src/daemon/process/manager.rs:48-54 | The guard releases its name unless it was defused |
| `ProcessRegistry.NameReservation.Keep` | mcproc/src/daemon/process/manager.rs:43-45 | Defuses the guard |
| `ProcessRegistry.WalksAgree` | mcproc/src/daemon/process/registry.rs:49-59 | Where at most one entry is wanted, every iteration order finds the same |
| `ProcessRegistry.ProjectLookupDeterministic` | mcproc/src/daemon/process/registry.rs:85-105 | With a project, the lookup by name or id does not depend on the iteration order |
| `ProcessRegistry.ProjectLookupSound` | mcproc/src/daemon/process/registry.rs:85-105 | With a project, the answer is inside it and None exactly when neither a name nor an id matches; a name wins unless the text is a UUID |
| `ProcessRegistry.LookupSound` | mcproc/src/daemon/process/registry.rs:74-83 | Without a project, the answer is a process of that name or id, and None exactly when there is none; a registered UUID is answered by its own process, otherwise a name wins |
| `ProcessRegistry.NameLookupExact` | mcproc/src/daemon/process/registry.rs:74-83 | Without a project, the answer is independent of the iteration order if and only if an id decides it or at most one process has the name |
| `ProcessRegistry.StartProcess` | mcproc/src/daemon/process/manager.rs:136-218 | A start is refused exactly by a live entry of its key, replaces a dead one, and after a bad pattern or a failed launch leaves the reserved names equal to the registered ones |
| `NameOwnership.StepMoves` | mcproc/src/daemon/process/manager.rs:136-218 | Every step of every start, stop, restart or clean moves at most one name, between exactly the owners it says |
| `NameOwnership.RunKeepsInv` | mcproc/src/daemon/process/registry.rs:23-47 | In every interleaving the reserved names are exactly the owned ones, each with one owner: an in-flight start, a registered process or a remover |
| `NameOwnership.AtMostOneProcess` | mcproc/src/daemon/process/manager.rs:136-163 | A project and name never has two registered processes |
| `NameOwnership.LookupsDeterministic` | mcproc/src/daemon/process/registry.rs:85-105 | In every reachable state the lookup with a project gives one answer for all iteration orders |
| `NameOwnership.OnlyOwnerReleases` | mcproc/src/daemon/process/registry.rs:28-33 | A name becomes free only when its one owner releases it, and then nobody owns it |
| `NameOwnership.ReleasesItsOwn` | mcproc/src/daemon/process/manager.rs:48-54 | Every release frees the releasing thread's own, reserved name |
| `NameOwnership.OnlyOwnSteps` | mcproc/src/daemon/process/registry.rs:28-33 | Nobody loses a name through another thread, except a process that is removed, whose remover takes it over |
| `NameOwnership.ReserveExact` | mcproc/src/daemon/process/registry.rs:35-43 | A reservation is granted exactly when nobody owns the name |
| `NameOwnership.QuiescentExact` | mcproc/src/daemon/process/registry.rs:23-47 | With nothing in flight the reserved names are the names of the registered processes |
| `NameOwnership.FailedLaunchFreesName` | mcproc/src/daemon/process/manager.rs:166-194 | A failed pattern, a failed launch or a caller that goes away frees the name again, whatever happens in between |
| `NameOwnership.FailedStopKeepsName` | mcproc/src/daemon/process/manager.rs:478-506 | A failed stop leaves the process registered and its name reserved |
| `NameOwnership.HolderCanStep` | mcproc/src/daemon/process/manager.rs:163-218 | Whoever holds a name can always take a step towards letting it go |
| `NameOwnership.RemovedWasDead` | mcproc/src/daemon/process/manager.rs:141-158 | In every run a process is unregistered only by a thread whose own last step saw that process dead or ended its stop |
| `NameOwnership.FoundIsRegistered` | mcproc/src/daemon/process/registry.rs:49-59 | What a lookup finds is registered, and for a start it is under the key of that start |
| `NameOwnership.AliveEndsStart` | mcproc/src/daemon/process/manager.rs:146-161 | A start that sees a live process under its key ends, with both maps as they were |
| `NameOwnership.DeadCanReserve` | mcproc/src/daemon/process/manager.rs:149-163 | Whatever others have done since, a start that saw a dead process can remove it and go on to reserve, and gets the name the process had |
| `NameOwnership.StartAlone` | mcproc/src/daemon/process/manager.rs:141-218 | A start under a free name, not overtaken, registers its process and holds the name |
| `NameOwnership.StartOverDead` | mcproc/src/daemon/process/manager.rs:141-218 | A start over a dead process, not overtaken, puts its own in that place under the same name |
| `NameOwnership.StartOverAlive` | mcproc/src/daemon/process/manager.rs:141-161 | A start over a live process leaves everything as it was |
| `NameOwnership.StopAlone` | mcproc/src/daemon/process/manager.rs:433-528 | A stop that succeeds unregisters its process and frees its name |
| `NameOwnership.RestartAlone` | mcproc/src/daemon/process/manager.rs:534-581 | A restart stops the process it finds and registers a new one under the same project and name |
| `NameOwnership.RestartFails` | mcproc/src/daemon/process/manager.rs:556-557 | A restart whose stop fails, or no longer finds the process, ends there with both maps as they were |
| `NameOwnership.RemovedMeanwhile` | mcproc/src/daemon/process/registry.rs:28-33 | Where another thread has removed the stopped process first, the stopper goes on as it would have and frees no name |
| `NameOwnership.NothingToStop` | mcproc/src/daemon/process/manager.rs:577-580 | Stopping or restarting what is not found changes nothing |
| `NameOwnership.CleanAlone` | mcproc/src/daemon/process/manager.rs:596-613 | A clean tries every process it has listed, whatever becomes of the others: one that is gone is passed over, those whose stop succeeds are removed with their names, the rest stay |
| `NameOwnership.CancelledEnds` | mcproc/src/daemon/process/manager.rs:48-54 | A request whose caller goes away changes neither map, and ends unless it has a name to give back |
| `ProcessStatus.FromByte` | mcproc/src/daemon/process/proxy.rs:32-43 | Reading back a stored status byte gives that status; every other byte reads as Stopped |
| `ProcessStatus.SyncVerdict` | mcproc/src/daemon/process/manager.rs:684-688 | A sync gives an exit code the verdict of the monitor |
| `ProcessStatus.ProxyInfo.SyncProcessStatus` | mcproc/src/daemon/process/manager.rs:669-739 | One sync on its own: an inactive status stays, an exit code decides, and otherwise `kill -0` does |
| `ProcessStatus.UndisturbedSync` | mcproc/src/daemon/process/manager.rs:807-882 | The atomic steps of a sync, undisturbed, have the effect of the whole |
| `ProcessStatus.RunKeepsInv` | mcproc/src/daemon/process/manager.rs:287-345 | In every interleaving of monitor, syncs and stops, a finished monitor means the status has left Starting, and syncs act only on the stored exit code |
| `ProcessStatus.StartingNeverWritten` | mcproc/src/daemon/process/manager.rs:669-739 | No step of any writer writes Starting |
| `ProcessStatus.WhoWritesWhat` | mcproc/src/daemon/process/manager.rs:287-345 | The monitor writes Stopped for exit code 0 and Failed for anything else, a stop Stopping and then Stopped, a sync Running, Failed, or Stopped for a stored code 0; nobody else writes |
| `ProcessStatus.EverybodyCanGoOn` | mcproc/src/daemon/process/manager.rs:287-345 | Whatever the others have done, monitor, syncs and stops can take their next step, and a stop that fails changes no status |
| `ProcessStatus.PeriodicFilters` | mcproc/src/daemon/process/manager.rs:752-776 | A periodic sync leaves an inactive process alone and treats an active one like any other sync |
| `ProcessStatus.StartingLeftForGood` | mcproc/src/daemon/process/manager.rs:669-739 | Along every interleaving, a status that has left Starting never comes back to it |
| `ProcessStatus.OnePassSettles` | mcproc/src/daemon/process/manager.rs:669-739 | One sync that begins after the monitor is done and after the last late write of Running makes the status inactive for ever |
| `ProcessStatus.InactiveForEver` | mcproc/src/daemon/process/manager.rs:669-739 | From then on no step of monitor, sync or stop makes the status Starting or Running |
| `ProcessStatus.VerdictFinalExact` | mcproc/src/daemon/process/manager.rs:301-305 | The verdict the monitor has written is final, as long as no stop begins, if and only if no writer that read the old status is left to write another one |
| `ProcessStatus.TerminalStatusOverwritten` | mcproc/src/daemon/process/manager.rs:723-730 | A run in which Stopped is overwritten by Running |
| `ProcessStatus.CleanExitReadsFailed` | mcproc/src/daemon/process/manager.rs:708-722 | A run in which a process that exits with code 0 is reported as Failed, with nobody left to correct it |
| `ProcessStatus.FrozenForGood` | mcproc/src/daemon/process/manager.rs:676-683 | An inactive status that nobody is about to write stays as it is until a stop begins |
| `StopProtocol.ManagedProcess.WaitGracefully` | mcproc/src/daemon/process/proxy.rs:182-200 | The grace period polls every 100 ms, ends at the first poll that misses the group, and otherwise lasts its full time |
| `StopProtocol.ManagedProcess.AskToStop` | mcproc/src/daemon/process/proxy.rs:154-200 | SIGTERM at once, then the grace period: Ok means the group was missed, going on means it outlived every poll |
| `StopProtocol.ManagedProcess.ConfirmStoppedWithin` | mcproc/src/daemon/process/proxy.rs:249-267 | Succeeds only at a moment when the group is gone or all zombie, and gives up only after the full time with a live member just seen |
| `StopProtocol.ManagedProcess.Stop` | mcproc/src/daemon/process/proxy.rs:143-238 | Ok means the group was seen to have ended, and marks Stopped; otherwise the status stays Stopping and the group was alive one look ago. SIGTERM comes at once, SIGKILL only after the whole grace period, exactly when the group outlived every poll |
| `StopProtocol.ManagedProcess.Kill` | mcproc/src/daemon/process/proxy.rs:205-238 | SIGKILL is followed by a look every `ps` and 100 ms: the first one that decides gives the outcome, and only an ended group is marked Stopped |
| `StopProtocol.OutlivesGraceExact` | mcproc/src/daemon/process/proxy.rs:187-200 | For a group that does not come back, the last poll alone decides about SIGKILL |
| `StopProtocol.StopWithFallback` | mcproc/src/daemon/process/manager.rs:466-507 | A stop that misses its deadline is followed by one forced stop; a graceful stop sends SIGTERM at once and fails only at the end of both deadlines, and a group that outlives the first one is decided by the looks of the second; a forced stop sends one SIGKILL |
| `StopProtocol.StopProcess` | mcproc/src/daemon/process/manager.rs:433-528 | Only a stop that saw the group end unregisters the process and releases its name; any failure leaves both maps alone; and it is over within the bound |
| `StopProtocol.StopWithinClientDeadline` | mcproc/src/cli/utils.rs:10-12 | The bound is T + 10200 ms where the sum does not wrap, and is within the client's deadline exactly outside one window at the end of the `u64` range |
| `StopProtocol.LongestStop` | mcproc/src/daemon/process/manager.rs:466-528 | For every grace period a graceful stop exists that succeeds exactly at the bound; it outlasts the client's deadline if and only if the grace period is in that window |
| `JsonRpc.Answer` | mcp-rs/src/protocol.rs:187-227 | A request is answered under its own id with either a result or an error; the next five rows say which |
| `JsonRpc.InvalidRequestExact` | mcp-rs/src/protocol.rs:192-197 | A request of a wrong protocol version runs nothing and is answered Invalid Request, -32600, and no other request is |
| `JsonRpc.BuiltInMethods` | mcp-rs/src/protocol.rs:199-201 | `initialize`, `tools/list` and `shutdown` get their own results and notify nothing |
| `JsonRpc.ToolCallRuns` | mcp-rs/src/protocol.rs:275-315 | A call of a registered tool runs that tool on the call's own arguments, progress token and id; its outcome, failure included, is rendered as a result, and its notifications are the call's |
| `JsonRpc.ToolCallRefused` | mcp-rs/src/protocol.rs:267-318 | A call without parameters, without a tool name or of an unknown tool runs nothing and is Invalid params, -32602 |
| `JsonRpc.OtherMethods` | mcp-rs/src/protocol.rs:321-358 | Any other method is a tool of that name on the request's own parameters, or else a custom method, and gives its plain outcome with the standard code for each failure; or else it is Method not found, -32601 |
| `JsonRpc.BatchInOrder` | mcp-rs/src/protocol.rs:108-127 | A batch is answered by its members' answers in order and notifies what they notify, in order |
| `JsonRpc.Protocol.HandleMessage` | mcp-rs/src/protocol.rs:83-132 | The queued dispatcher gives the response of the realtime one, the notifications of a single request, none of a batch, and leaves its own queue as the sender |
| `JsonRpc.Protocol.HandleMessageRealtime` | mcp-rs/src/protocol.rs:134-173 | The realtime dispatcher has sent every notification, in order, when it returns the same response |
| `JsonRpc.IdsAnsweredInOrder` | mcp-rs/src/protocol.rs:108-127 | Section 6 of JSON-RPC 2.0 for any nesting: the flattened response ids are the flattened request ids in order, with Null for each empty batch |
| `JsonRpc.AnsweredExactly` | mcp-rs/src/protocol.rs:108-127 | There is an answer if and only if there is a request or an empty batch at some depth |
| `JsonRpc.RepliesAreProper` | mcp-rs/src/protocol.rs:108-127 | Every answer consists of responses in batches that are never empty, and a batch is answered by a batch |
| `JsonRpc.SilentExactly` | mcp-rs/src/protocol.rs:116-121 | A message produces no notification if and only if no request in it, at any depth, has its handler notify |
| `JsonRpc.QueuedNotesExact` | mcp-rs/src/protocol.rs:116-121 | The queued dispatcher loses no notification if and only if the message is no batch or no request in it, at any depth, has its handler notify |
| `JsonRpc.DroppedInBatch` | mcp-rs/src/protocol.rs:116-121 | A tool call whose notification is handed over alone and in realtime, and dropped in a batch |
| `ServerLoop.RunKeepsInv` | mcp-rs/src/server.rs:92-159 | In every schedule the queue stays within its capacity, and for each handler what was sent, queued and is to come is its whole output in order |
| `ServerLoop.ClosedMeansSent` | mcp-rs/src/server.rs:140-159 | When the transport is closed every handler's output has been sent exactly once, in order |
| `ServerLoop.StepDecreases` | mcp-rs/src/server.rs:102-156 | Every step of the loop or of a handler uses up work |
| `ServerLoop.NeverStuck` | mcp-rs/src/server.rs:140-156 | Until the server has closed some step is possible, even with a full queue and the input ended |
| `ServerLoop.ProgressWithoutInput` | mcp-rs/src/server.rs:102-156 | With a silent transport some handler step, send or join is possible exactly while the queue holds a message or a handler is not joined |
| `ServerLoop.MaximalRunCloses` | mcp-rs/src/server.rs:92-159 | Every schedule ends within a number of steps fixed by the input, and one that cannot go on has closed with everything sent |
| `ServerLoop.Drain` | mcp-rs/src/server.rs:143-156 | The drain loop, whatever it picks next, ends with every handler joined, the queue empty and everything sent |
| `ServerLoop.EveryMessageAnswered` | mcp-rs/src/server.rs:110-119 | A closed server has sent, for each message, its notifications and then its one answer, with the ids that were asked for |
| `ShellQuoting.QuotedArgsRoundTrip` | mcproc/src/daemon/process/launcher.rs:15-30 | Tokenising the quoted arguments gives back the arguments, for every list, with empty strings and quotes included |
| `ShellQuoting.LexEscaped` | mcproc/src/daemon/process/toolchain.rs:115 | Between single quotes the escaped text reads as the original, whatever it contains |
| `ShellQuoting.LexArgs` | mcproc/src/daemon/process/launcher.rs:15-30 | Quoted arguments behind already read words add exactly those arguments |
| `ShellQuoting.UnquotedExact` | mcproc/src/daemon/process/launcher.rs:17-22 | An argument goes unquoted exactly when it is not empty and consists of letters, digits and ten safe characters |
| `ShellQuoting.TokensApart` | mcproc/src/daemon/process/launcher.rs:112-129 | A blank outside quotes separates the words in front of it from the words behind it |
| `LaunchCommand.FindNamed` | mcproc/src/daemon/process/toolchain.rs:109-111 | A toolchain is found exactly when some supported name equals the text up to ASCII case |
| `LaunchCommand.ParseNamed` | mcproc/src/daemon/process/toolchain.rs:109-111 | Each of the ten toolchains is found under its own name in any mix of cases |
| `LaunchCommand.EveryToolchainShaped` | mcproc/src/daemon/process/toolchain.rs:16-83 | Each of the ten templates is plain words and one single-quoted word ending in the command |
| `LaunchCommand.WrappedShape` | mcproc/src/daemon/process/toolchain.rs:114-121 | Replacing the placeholder puts the escaped command at the end of the quoted word |
| `LaunchCommand.LaunchFailsExactly` | mcproc/src/daemon/process/launcher.rs:73-106 | There is no command to run exactly without arguments and command line, or for a toolchain no supported one is named like, and the error says which |
| `LaunchCommand.QuotedNeedsShell` | mcproc/src/daemon/process/launcher.rs:112-122 | Quoted arguments count as shell syntax exactly when one of them holds a shell character |
| `LaunchCommand.ArgumentsArrive` | mcproc/src/daemon/process/launcher.rs:73-131 | Without a toolchain the shell reads exactly the arguments, behind one word `exec` unless one of them holds a shell character |
| `LaunchCommand.CommandLineArrives` | mcproc/src/daemon/process/launcher.rs:76-78 | Without arguments or toolchain, a command line with a shell character is handed over as it stands; any other reaches the shell as `exec` and the words it has on its own |
| `LaunchCommand.WrappedLineArrives` | mcproc/src/daemon/process/launcher.rs:76-96 | With a toolchain, the last word is the template's introduction followed by the command line itself, and the command line alone for all but nvm |
| `LaunchCommand.WrappedCommandArrives` | mcproc/src/daemon/process/launcher.rs:90-96 | With a toolchain the shell reads `exec`, the template's words and one last word that ends in the command, and is the command for all but nvm |
| `LaunchCommand.ArgumentsArriveTwice` | mcproc/src/daemon/process/launcher.rs:73-96 | The word given to the inner shell tokenises to the arguments again |
| `ProcessTree.GetProcessTree` | mcproc/src/daemon/process/port_detector.rs:69-97 | For any child relation, with cycles and repetitions, it ends with the root first, no pid twice and exactly the pids reachable from the root |
| `ProcessTree.AddChildren` | mcproc/src/daemon/process/port_detector.rs:84-91 | The children not yet known are appended once, and all children are known afterwards |
| `ProcessTree.DistinctBounded` | mcproc/src/daemon/process/port_detector.rs:87 | A list of distinct 32-bit pids is bounded, so the worklist is |

## Left out

- gRPC, sockets, the daemon's life cycle, the CLI and the MCP tools themselves.
- Library code is a parameter: the regular expression, UTF-8 decoding and trimming, timestamp printing and parsing, JSON values. Timestamps are assumed ASCII and without space or line feed, and lossy decoding is assumed to pass ASCII bytes through.
- `ps`, `kill`, `killpg` and `pgrep` are oracles; the child relation is taken as fixed while the tree is built, and a failing `pgrep` as one without children.
- Failing file operations: opening, reading and writing log files succeeds in the model, and appending one buffer is atomic.
- Errors that abort the server's event loop; a run of the model has none.
- Following a log after its tail, which the code does not promise to be free of gaps.
- Shell grammar beyond token recognition and quote removal (sections 2.2, 2.3 and 2.6.7 of the Shell Command Language, IEEE Std 1003.1): assignments, reserved words, expansions. The tokeniser refuses unquoted text that would need them, except for words such as `a=b`.
- The display texts of toolchains, validation of names, configuration, ports, uptimes, time ranges and their parsing.
- `LogGrep.GrepLogFile`: an instant outside chrono's range, which the search replaces by the current time, is not modelled, nor is the panic of a debug build at line 2^32.
- `LogPipeline.RecordRoundTrip`: times are assumed to print and parse back to the millisecond only for the years 1970 to 9999.
- `StopProtocol.ManagedProcess.Stop`: the monitor and sync writers of the status are not interleaved here, because `ProcessStatus` covers them; a deadline beyond the range of an instant is not modelled.
- `NameOwnership.RunKeepsInv`: process ids are assumed fresh, and a lookup may find any registered id, which allows more runs than the code has.
- `ServerLoop.EveryMessageAnswered`: handlers are deterministic, and one panicking handler is an error that ends the run.
- `HyperLog.HyperLogStreamer.Run`: the wait-for-log test is recorded here and modelled with its locks in `WaitForLog`; the writer is assumed to have been created.
