# bilbo-loggings, modelled in Dafny

bilbo-loggings is a small logging system in two layers.

- **Writing in-process.** A `Logger` builds one mutable entry, rejects entries that have no level, prints entries whose level is listed, and writes each one as a serialised line to a dated log file. Log files are named `bilbo-<infix>-<Y>-<M>-<D>-<id>.log`, found again by a name pattern, sorted newest-first, archived on start-up, and opened with a line count computed from their content.
- **Shipping over a socket.** A client (`Bilbo`) takes entries from a pool, fills them with a level, a timestamp and a message, writes them to a Unix socket, and returns them to the pool empty. A daemon (`Loggings`) receives the bytes of every client, batches them by line count into its log stream, flushes partial batches on a timeout, and shuts itself down when no client has been connected for a while. An older receiver splits each chunk at its last newline instead. A fixed-size ring buffer is part of the same code base.

The project models these parts, one module per source file:

| module | file | models |
|---|---|---|
| `RingBuffers` | ring_buffer.dfy | `RingBuffer` of src/buffer/ring-buffer.ts: a class over an array of slots, proved equal to an abstract queue `Contents` |
| `LoggingsDaemon` | loggings.dfy | src/loggings/loggings.ts: the batching transform (`BatchStream`), its timeout flush, and the clients map with its idle timer (`Loggings`) |
| `CoreLoggings` | core_loggings.dfy | src/core/loggings.ts: the per-connection last-newline reassembler and the clients map |
| `Sessions` | sessions.dfy | what both receivers share: connection ids, sockets, the recorded effects, and the loop of `server_cleanup` that ends every client |
| `Bytes` | bytes.dfy | bytes, newline counting, concatenation, and the backward last-newline scan |
| `FileNaming` | file_naming.dfy | the name pattern of src/core/util.ts and its variants as a small JavaScript-style regular-expression matcher; the file-name layout; the shared filter and newest-first sort |
| `Decimal` | decimal.dfy | unpadded decimal rendering of numbers, as template literals produce it |
| `Paths` | paths.dfy | `path.join` and `path.basename` for the separator `/` |
| `LogFolders` | log_folder.dfy | src/core/log-folder.ts |
| `LoggerFolders` | logger_folder.dfy | src/core/logger-folder.ts: the compressed/uncompressed partition, the biggest id of today, and the recovery decision |
| `RotateFolders` | rotate_folder.dfy | src/loggings/rotate-folder.ts: the archive listing and the archive destination |
| `LogFiles` | log_file.dfy | `LogFile` of src/core/log-file.ts: the initial line count (`trim`, `split`) and `write_ln` |
| `Entries` | entries.dfy | a JavaScript object as an insertion-ordered list of fields, with lookup, assignment and `delete` |
| `Loggers` | logger.dfy | `Logger` of src/core/logger.ts |
| `Bilbos` | bilbo.dfy | `LogEntry` and `Bilbo`'s entry pool in src/bilbo/bilbo.ts |
| `Wrappers` | wrappers.dfy | `Option` and `Result` |

The model represents the outside world as follows.

- A directory listing is a `seq<string>` input, and today's UTC date is a `Date` parameter.
- A file's content is a string parameter. A stream's answer to a write is a `bool` parameter.
- A socket or a stream is the sequence of what was written to it.
- `Date.now()` and `crypto.randomUUID()` are arguments.
- `JSON.stringify` is an uninterpreted `serialise` function.
- Timers are the delay of the handle the daemon holds, plus the delays of the orphaned timers still pending, and explicit "timer fires" methods.
- Effects on sockets, the server and the socket file are recorded as events, in order.

Some details of the code that the model follows closely:

- **Name pattern.** The pattern of src/core/util.ts takes a 1–3 digit id followed by an unescaped `.` and `log`, and ends there. The pattern of src/core/logger-folder.ts takes any number of id digits, the same unescaped `.log` and an optional `(\.gz)` group.
- **Line count.** The initial line count is the number of pieces of the trimmed content split at `\n`.
- **Batch timer.** The batch timeout belongs to the transform stream, so there is one for all connections.
- **Time field.** `Bilbo.level` stores the time of a client entry under the key `at`.
- **Reassembler scan.** The older reassembler's scan for the last newline counts upward from the last index (`i++`). The Findings section covers this.
- **Idle timer.** `server_timeout` overwrites the handle of a pending idle timer without clearing it. That timer stays pending, and `server_conn` cannot clear it any more.

## Model

| member | source | states |
|---|---|---|
| RingBuffers.RingBuffer.Create | src/buffer/ring-buffer.ts:9-15 | construction fails exactly when `size <= 0`; otherwise the buffer has that size and is empty |
| RingBuffers.RingBuffer.Init | src/buffer/ring-buffer.ts:9-15 | a buffer of a positive size starts empty and satisfies the layout invariant |
| RingBuffers.RingBuffer.Count | src/buffer/ring-buffer.ts:17-19 | `count` is the number of queued items and never exceeds `size` |
| RingBuffers.RingBuffer.IsFull | src/buffer/ring-buffer.ts:21-23 | `is_full` holds exactly when the queue holds `size` items |
| RingBuffers.RingBuffer.Enqueue | src/buffer/ring-buffer.ts:27-41 | returns false exactly when the buffer was full; the queue becomes old contents plus the item, with the oldest item dropped when it was full |
| RingBuffers.RingBuffer.Dequeue | src/buffer/ring-buffer.ts:45-61 | on an empty buffer: undefined, and nothing changes; otherwise removes and returns the oldest item (FIFO); once empty, `head == tail == 0` |
| RingBuffers.RingBuffer.Peek | src/buffer/ring-buffer.ts:63-69 | the oldest item, or undefined when empty; reads the state without changing it |
| RingBuffers.RingBuffer.Items | src/buffer/ring-buffer.ts:91-103 | the iterator yields exactly the queue, oldest first, and changes nothing |
| RingBuffers.RingBuffer.Flush | src/buffer/ring-buffer.ts:73-89 | yields the queue oldest first; while item k is yielded `count` is `n - k`; the buffer ends empty with `head == tail == 0` |
| RingBuffers.Wrap | src/buffer/ring-buffer.ts:30-35 | the cursor step `(k + 1) % size` stays inside the array |
| LoggingsDaemon.IdleWindow | src/loggings/loggings.ts:16-19 | the idle window is the larger of the batch timeout and 2000 ms |
| LoggingsDaemon.ScanLoop | src/loggings/loggings.ts:149-174 | the transform's byte loop computes the reference scan of the whole chunk |
| LoggingsDaemon.ScanChunk | src/loggings/loggings.ts:149-179 | the batches of one chunk followed by the new buffer are the old buffer followed by the chunk; with a batch size of at least 1, every batch ends with a newline and holds the batch size in newlines, and the count stays below the batch size |
| LoggingsDaemon.ScanResult | src/loggings/loggings.ts:151-179 | the reference scan loses, duplicates and reorders no byte, and leaves a count below the batch size |
| LoggingsDaemon.BatchedAll | src/loggings/loggings.ts:152-170 | "every batch is full" holds batch by batch, with only the first one credited for newlines a timeout flush already pushed |
| LoggingsDaemon.BatchStream.Transform | src/loggings/loggings.ts:146-194 | no byte lost, duplicated or reordered across the call; only full batches pushed; the new bytes stay buffered when nothing is pushed; once a batch is pushed, `buffer_count` is again exactly the newlines of `buffer`; the batch timer is armed |
| LoggingsDaemon.TransformAll | src/loggings/loggings.ts:146-179 | over any run of chunks with no timeout flush, the batches pushed and the buffer are the bytes received, and `buffer_count` is exactly the number of newlines in `buffer` |
| LoggingsDaemon.BatchStream.TimeoutFires | src/loggings/loggings.ts:181-191 | pushes the buffer up to and including its last newline (possibly nothing), keeps the rest, and leaves `buffer_count` as it was |
| LoggingsDaemon.BatchStream.constructor | src/loggings/loggings.ts:140-145 | an empty buffer, a zero count, nothing pushed and no timer |
| LoggingsDaemon.BatchesDetermined | src/loggings/loggings.ts:152-179 | with full batches and a short rest, the number of batches is the number of newlines divided by the batch size, and the rest holds the remainder (25 lines at size 20: one batch, 5 lines kept) |
| LoggingsDaemon.SplitAtLastNewline | src/loggings/loggings.ts:182-190 | the flushed part and the kept part concatenate to the buffer; the kept part holds no newline; the flushed part is empty or ends with one |
| LoggingsDaemon.Loggings.constructor | src/loggings/loggings.ts:21-56 | no clients, an idle timer armed with the idle window, an empty stream |
| LoggingsDaemon.Loggings.ServerTimeout | src/loggings/loggings.ts:101-105 | holds a new idle timer with the given delay; a timer still pending under the old handle becomes an orphan; nothing else changes |
| LoggingsDaemon.Loggings.ServerConn | src/loggings/loggings.ts:58-70 | clears the idle timer, registers the client under its id and acknowledges it |
| LoggingsDaemon.Loggings.ClientData | src/loggings/loggings.ts:88-111 | while the daemon is open, the bytes go to the shared transform stream; after `server_cleanup` ended the stream, the write fails with an `error` and the stream takes nothing |
| LoggingsDaemon.Loggings.ClientError | src/loggings/loggings.ts:113-122 | removes only that id; re-arms the timer with the idle window exactly when no client is left; when no client was left before, the pending timer becomes an orphan |
| LoggingsDaemon.Loggings.ClientEnd | src/loggings/loggings.ts:124-133 | removes only that id; re-arms the timer with 2000 ms exactly when no client is left; when no client was left before, the pending timer becomes an orphan |
| LoggingsDaemon.Loggings.ServerCleanup | src/loggings/loggings.ts:88-99 | closes the server, ends the log stream, ends every client socket once, empties the map, and unlinks the socket file when it exists |
| LoggingsDaemon.Loggings.TimerFires | src/loggings/loggings.ts:101-105 | the idle timer the daemon holds fires only with no clients connected, and closes everything |
| LoggingsDaemon.Loggings.OrphanFires | src/loggings/loggings.ts:101-105 | an orphaned timer runs the cleanup whatever clients are connected, and ends each of them once |
| LoggingsDaemon.DoubleRearm | src/loggings/loggings.ts:101-133 | a connection that runs both `client_error` and `client_end` orphans the first re-armed timer; a second connection cannot clear it, and when it fires it ends that second client |
| LoggingsDaemon.Loggings.Interrupt | src/loggings/loggings.ts:50-53 | SIGINT clears the timer the daemon holds and runs the cleanup, which ends every client once; orphaned timers stay pending |
| Sessions.DrainClients | src/loggings/loggings.ts:91-94 | every client is ended exactly once |
| Sessions.EndEvents | src/loggings/loggings.ts:91-94 | one `end` event per client, in order |
| Bytes.LastNewlineIndex | src/loggings/loggings.ts:182-188 | the index of the last newline, or -1 when there is none |
| Bytes.LastNewline | src/loggings/loggings.ts:182-188 | the backward scan finds that index |
| Bytes.LastNewlineUnique | src/loggings/loggings.ts:182-188 | a newline index with no newline after it is the last newline |
| CoreLoggings.ScanEnds | src/core/loggings.ts:83-89 | for an empty chunk, or one ending with a newline, the scan as written ends at once with the last newline |
| CoreLoggings.ScanHangs | src/core/loggings.ts:83-89 | for any other chunk the scan as written never ends |
| CoreLoggings.PartialLineHangs | src/core/loggings.ts:83-89 | the chunk `A\nB` has its last newline at 1, yet the scan as written never finds it |
| CoreLoggings.Reassembler.constructor | src/core/loggings.ts:80-81 | each connection starts with its own empty residue |
| CoreLoggings.Reassembler.Data | src/core/loggings.ts:80-102 | a chunk holding a newline writes residue plus chunk through its last newline, and keeps the rest; otherwise nothing is written and the chunk joins the residue; nothing is lost or reordered |
| CoreLoggings.Reassembler.WriteUpTo | src/core/loggings.ts:91-97 | writes `buff ++ data[0..last_nl]` and keeps `data[last_nl+1..]` |
| CoreLoggings.Reassembler.Keep | src/core/loggings.ts:98-100 | writes nothing and appends the chunk to the residue |
| CoreLoggings.WriteStep | src/core/loggings.ts:91-97 | the write branch keeps the reassembly invariant |
| CoreLoggings.KeepStep | src/core/loggings.ts:98-100 | the keep branch keeps the reassembly invariant |
| CoreLoggings.ReassemblyLossless | src/core/loggings.ts:80-102 | across the chunks of a connection, the writes followed by the residue are every byte received, and hold all its newlines |
| CoreLoggings.Loggings.ServerConn | src/core/loggings.ts:41-50 | registers the client, gives it a fresh reassembler and acknowledges it |
| CoreLoggings.Loggings.ClientData | src/core/loggings.ts:80-102 | the connection's message, if any, goes to the log stream |
| CoreLoggings.Loggings.ClientEnd | src/core/loggings.ts:104-109 | removes only that id |
| CoreLoggings.Loggings.ServerCleanup | src/core/loggings.ts:68-78 | closes the server, ends every client once, empties the map, unlinks the socket file when it exists |
| FileNaming.MatchAt | src/core/util.ts:3 | a match captures one non-empty run of digits per digit group |
| FileNaming.Parse | src/core/util.ts:3 | a name parses exactly when the pattern matches somewhere in it |
| FileNaming.LogPattern | src/core/util.ts:1-5 | the pattern has four capturing digit groups: year, month, day, id |
| FileNaming.LoggerPattern | src/core/logger-folder.ts:16-18 | the same four groups, then `.log` and an optional `.gz` |
| FileNaming.ParseFileName | src/core/util.ts:3 | a generated name matches the pattern, and its groups give back year, month, day and id |
| FileNaming.LongIdRejected | src/core/util.ts:3 | a name whose id has four digits or more is not matched |
| FileNaming.FileNameShape | src/core/log-folder.ts:27 | the file name is `bilbo-<infix>-<Y>-<M>-<D>-<id>.log` |
| FileNaming.CompareOrder | src/core/log-folder.ts:56-66 | the comparator puts a name first exactly when its (year, month, day, id) is not smaller, and is antisymmetric |
| FileNaming.SortNewestFirst | src/core/log-folder.ts:56-66 | the sort is a permutation |
| FileNaming.SortSorted | src/core/log-folder.ts:56-66 | the sort's result is newest first |
| FileNaming.Select | src/core/log-folder.ts:46-55 | the filter keeps each accepted name as often as the listing holds it, and nothing else |
| FileNaming.ListFiles | src/core/log-folder.ts:46-66 | filter then sort: a permutation of the accepted names of the listing, newest first |
| FileNaming.ListOne | src/core/log-folder.ts:46-66 | a one-name listing gives that name exactly when it is accepted |
| Decimal.NatToStringValue | src/core/log-folder.ts:27 | the unpadded decimal text of a number reads back as the number |
| Decimal.NatToStringLength | src/core/util.ts:3 | a number fits in k digits exactly when it is below 10^k |
| Paths.BasenameOfJoin | src/loggings/rotate-folder.ts:76-77 | the base name of a joined path is the name |
| LogFolders.CreateFile | src/core/log-folder.ts:22-33 | the joined path whose base name is today's file name, which parses back to today's date and the id (for ids of at most three digits) |
| LogFolders.NameParses | src/core/util.ts:3 | a created name parses back to its date and id |
| LogFolders.GetLogFiles | src/core/log-folder.ts:38-67 | a permutation of the matching names whose year, month and day are each at most today's, newest first |
| LogFolders.GetLogFilesNotAfter | src/core/log-folder.ts:46-55 | the same listing with "not after today" compared as dates |
| LogFolders.CreatedFileIsToday | src/core/log-folder.ts:71-83 | the base name of a path created today is today's file |
| LogFolders.OtherDayIsNotToday | src/core/log-folder.ts:71-83 | the base name of a path created on another day, and a name that does not match, are not today's file |
| LogFolders.TodayListed | src/core/log-folder.ts:38-67 | today's files are always listed |
| LogFolders.EarlierFileDropped | src/core/log-folder.ts:46-55 | on 2024-1-15 the file of 2023-12-31 is dropped as written, and kept by the date comparison |
| LoggerFolders.CreateFile | src/core/logger-folder.ts:28-39 | the joined path whose base name is the file name, which parses back to today's date and the id |
| LoggerFolders.IsTodayFileIff | src/core/logger-folder.ts:75-84 | for a matching name, today's exactly when its year, month and day equal today's; a match is required, as the source's `!` assumes |
| LoggerFolders.CreatedFileIsToday | src/core/logger-folder.ts:28-39 | the file created on a date matches, and it is today's file exactly when that date is today |
| LoggerFolders.PlainNameParses | src/core/logger-folder.ts:16-18 | a log name parses as uncompressed with its date and id |
| LoggerFolders.ArchiveNameParses | src/core/logger-folder.ts:16-18 | a log name plus `.gz` parses as compressed with its date and id |
| LoggerFolders.FilterValidFiles | src/core/logger-folder.ts:43-63 | a permutation of the matching names with the asked-for compression, newest first |
| LoggerFolders.CompressedPartition | src/core/logger-folder.ts:43-63 | a log name is listed only as uncompressed, its `.gz` archive only as compressed |
| LoggerFolders.PlainListing | src/core/logger-folder.ts:43-63 | a log name is listed as uncompressed and not as compressed |
| LoggerFolders.GetValidFiles | src/core/logger-folder.ts:66-73 | the uncompressed matching names, each as often as listed |
| LoggerFolders.NewestTodayId | src/core/logger-folder.ts:88-110 | a non-zero result is the id of a listed file of today |
| LoggerFolders.NewestTodayIdBound | src/core/logger-folder.ts:88-110 | with no file after today, no file of today has a bigger id than the first sorted entry |
| LoggerFolders.Max | src/core/logger-folder.ts:109 | the larger of the two ids |
| LoggerFolders.RetrieveBiggestFileId | src/core/logger-folder.ts:88-110 | the larger of the newest ids of today in the log folder and the rotate folder, both listed as uncompressed |
| LoggerFolders.RetrieveBiggestFileIdCorrected | src/core/logger-folder.ts:98-100 | the same with the rotate folder listed as compressed |
| LoggerFolders.CorrectedIdIsBiggest | src/core/logger-folder.ts:88-110 | the corrected result is at least the id of every file of today, plain or archived |
| LoggerFolders.ArchivesIgnored | src/core/logger-folder.ts:98-100 | an archive of today in the rotate folder gives 0 as written, and its id corrected |
| LoggerFolders.ArchiveListing | src/core/logger-folder.ts:66-73 | an archive is not among the uncompressed files |
| LoggerFolders.Reversed | src/core/logger-folder.ts:120-122 | the order of the descending loop |
| LoggerFolders.ReversedMultiset | src/core/logger-folder.ts:120-122 | the descending loop visits every file once |
| LoggerFolders.RecoverFolder | src/core/logger-folder.ts:114-130 | the loop computes the recovery decision |
| LoggerFolders.RecoverArchivesAll | src/core/logger-folder.ts:114-130 | when no file is adopted, every uncompressed file is archived |
| LoggerFolders.RecoverKeepsNewest | src/core/logger-folder.ts:124-129 | when a file is adopted, it is the newest one and is today's, and every other file is archived |
| LoggerFolders.OtherDaysArchived | src/core/logger-folder.ts:120-129 | every file of another day is archived |
| RotateFolders.GetRotateFiles | src/loggings/rotate-folder.ts:22-51 | a permutation of the matching names whose year, month and day are each at most today's, newest first |
| RotateFolders.IsTodayRotateIff | src/loggings/rotate-folder.ts:55-67 | today's archive exactly when the name matches with today's year, month and day |
| RotateFolders.RotateDestination | src/loggings/rotate-folder.ts:72-77 | nothing unless the path is a regular file; otherwise `<folder>/<base name>.gz` |
| RotateFolders.ArchiveNameParses | src/loggings/rotate-folder.ts:32 | the archive pattern (`source + ".gz"`) reads back an archive's date and id |
| RotateFolders.ArchivedFileListed | src/loggings/rotate-folder.ts:76-77 | a log file archived to the rotate folder is found again by the archive listing |
| LogFiles.TrimStart | src/core/log-file.ts:14 | leading white space removed, and only that |
| LogFiles.TrimEnd | src/core/log-file.ts:14 | trailing white space removed, and only that |
| LogFiles.Split | src/core/log-file.ts:14 | one more piece than separators, no piece holding one |
| LogFiles.JoinSplit | src/core/log-file.ts:14 | joining the pieces gives the string back |
| LogFiles.SplitJoin | src/core/log-file.ts:14 | splitting separator-free pieces joined gives them back |
| LogFiles.InitialLineCount | src/core/log-file.ts:12-14 | zero exactly for empty content |
| LogFiles.LinesCounted | src/core/log-file.ts:12-14 | a file of k newline-terminated lines, not starting or ending in white space, starts with k lines |
| LogFiles.OneLineFile | tests/core/log-file.test.ts:75-85 | `foo\n` counts one line, an empty file none |
| LogFiles.LogFile.constructor | src/core/log-file.ts:7-17 | the line count is that of the file's content |
| LogFiles.LogFile.WriteLn | src/core/log-file.ts:19-25 | hands `log ++ "\n"` to the stream, returns its answer, and counts the line exactly when it was accepted |
| Entries.Keys | src/core/logger.ts:99 | one key per field |
| Entries.Lookup | src/core/logger.ts:86 | a key has a value exactly when the object holds it |
| Entries.Set | src/core/logger.ts:80-83 | the key now holds the value; every other key keeps its value; a present key keeps its place and a new one comes last; keys stay unique |
| Entries.Delete | src/core/logger.ts:100 | the key is gone; every other key keeps its value; nothing is added; keys stay unique |
| Entries.OnlyPresentKey | src/core/logger.ts:99-101 | deleting every key but a present one leaves that single field |
| Entries.KeepStep | src/core/logger.ts:99-101 | one iteration of the delete loop over a snapshot of the keys |
| Entries.DeleteStep | src/bilbo/bilbo.ts:55-57 | one iteration of `reset`'s delete loop |
| Loggers.GetFileName | src/core/logger.ts:46-53 | the folder's file name for today without the `-<id>` |
| Loggers.LoggerFileUnnumbered | src/core/logger.ts:51 | neither file pattern matches the logger's own file name |
| Loggers.Get | src/core/logger.ts:86 | a key's value, undefined when absent |
| Loggers.Printing | src/core/logger.ts:90-95 | printed once exactly when a print mode is set and lists the entry's level, with its level and message |
| Loggers.Logger.constructor | src/core/logger.ts:33-44 | today's file in the folder, an empty entry |
| Loggers.Logger.Level | src/core/logger.ts:70-73 | sets `level`, keeps every other key, returns the logger |
| Loggers.Logger.Message | src/core/logger.ts:75-78 | sets `message`, keeps every other key, returns the logger |
| Loggers.Logger.Add | src/core/logger.ts:80-83 | sets one other key, keeps every other key, returns the logger |
| Loggers.Logger.Log | src/core/logger.ts:85-103 | throws and changes nothing exactly when the level is falsy; otherwise prints as `Printing` says, writes exactly one serialised line, and leaves only `level`, set to undefined |
| Loggers.NoFieldLeaks | src/core/logger.ts:99-102 | after a log no other field is left, and logging again without a level throws |
| Bilbos.Name | src/bilbo/bilbo.ts:137-155 | every level is sent under a name that reads back as that level |
| Bilbos.NamesDistinct | src/bilbo/bilbo.ts:137-155 | different levels are sent under different names |
| Bilbos.Opened | src/bilbo/bilbo.ts:127-135 | exactly the keys `level`, `at` and `message`, in that order, with the given values |
| Bilbos.LogEntry.constructor | src/bilbo/bilbo.ts:24-26 | a new entry is empty |
| Bilbos.LogEntry.Level | src/bilbo/bilbo.ts:32-35 | sets `level` and nothing else, returns the entry |
| Bilbos.LogEntry.Message | src/bilbo/bilbo.ts:37-40 | sets `message` and nothing else, returns the entry |
| Bilbos.LogEntry.At | src/bilbo/bilbo.ts:42-45 | sets `at` and nothing else, returns the entry |
| Bilbos.LogEntry.Field | src/bilbo/bilbo.ts:47-50 | sets one key and nothing else, returns the entry |
| Bilbos.LogEntry.Reset | src/bilbo/bilbo.ts:52-58 | deletes every key |
| Bilbos.Bilbo.constructor | src/bilbo/bilbo.ts:71 | an empty pool, nothing sent |
| Bilbos.Bilbo.GetLogFromPool | src/bilbo/bilbo.ts:112-119 | pops the most recently returned entry, or makes a fresh one and leaves the pool as it is; either way the entry is empty and no longer pooled |
| Bilbos.Bilbo.ReturnLogToPool | src/bilbo/bilbo.ts:121-125 | empties the entry and pushes it; every pooled entry stays empty |
| Bilbos.Bilbo.Level | src/bilbo/bilbo.ts:127-135 | an entry from the pool with exactly the level, the time and the message |
| Bilbos.Bilbo.Debug | src/bilbo/bilbo.ts:137-139 | `Level` with `DEBUG` |
| Bilbos.Bilbo.Info | src/bilbo/bilbo.ts:141-143 | `Level` with `INFO` |
| Bilbos.Bilbo.Warn | src/bilbo/bilbo.ts:145-147 | `Level` with `WARN` |
| Bilbos.Bilbo.Error | src/bilbo/bilbo.ts:149-151 | `Level` with `ERROR` |
| Bilbos.Bilbo.Fatal | src/bilbo/bilbo.ts:153-155 | `Level` with `FATAL` |
| Bilbos.Bilbo.LogToLoggings | src/bilbo/bilbo.ts:157-164 | writes the entry as one serialised line to the socket, then returns it to the pool empty |

## Left out

- Input and output are not modelled: the file system (`readdirSync`, `appendFileSync`, `mkdirSync`, `existsSync`, `readFileSync`, `writeFileSync`), sockets (`createServer`, `listen`, `connect`, the `awk` handshake promise), `pipe` and Node's `Transform` machinery, and the `gzip` process with `renameSync`. Directory listings and file contents are inputs; effects are recorded values.
- LoggingsDaemon.Loggings.ServerCleanup: a batch timer still pending when `log_stream.end()` runs (src/loggings/loggings.ts:90, 181-191) later pushes after the stream has ended, so the bytes still in `buffer` at shutdown are never written. The model records `EndLogStream` and does not follow the stream past it. The same holds for `Interrupt`, `TimerFires` and `OrphanFires`, which run the cleanup.
- Archiving on failed compression: after `reject()`, `rotate_file` goes on to rename `<file_path>.gz`, the archive gzip would have written, into the rotate folder (src/core/logger-folder.ts:141-148, src/loggings/rotate-folder.ts:81-86). After a failed gzip that archive is most likely missing, so the rename throws inside the `exec` callback. The gzip run and the rename are not modelled.
- `LogFile.finish` (src/core/log-file.ts:29-44) only ends and closes the stream.
- A stream write that returns false still queues the data. The model records the write and leaves buffering to the stream.
- Dates and clocks: today's UTC date, `Date.now()` and the connection UUID are parameters. Timer delays are recorded, not waited for.
- `JSON.stringify` is an uninterpreted function, and console printing with ANSI colours is recorded only as `Printed` values.
- `path.normalize` and the normalisation inside `path.join`: paths are joined literally with `/`.
- LoggingsDaemon.Loggings.TimerFires: it speaks only of the timer the daemon holds. An orphaned timer can shut the daemon down with clients connected, which `OrphanFires` states and `DoubleRearm` shows for one run of events. A timer is orphaned when a client is removed while no client is left, as when one connection runs both `client_error` and `client_end`. Whether Node emits both events for one socket is not modelled.
- LoggingsDaemon.Loggings.ClientData: the `error` event of a write after `end()` is recorded as `WriteAfterEnd`. That nothing listens for it, and that the process then stops, is not modelled.
- LoggingsDaemon.IdleWindow: it assumes TypeScript's emit order that assigns the constructor's parameter properties before the field initialiser of `loggings_timeout_ms` runs. Under `useDefineForClassFields` the initialiser runs first, `Math.max(undefined, 2000)` is `NaN`, and that case is not modelled.
- RingBuffer.Flush: a consumer that abandons the generator part-way leaves a stale `_count` (src/buffer/ring-buffer.ts:83-84); only a full drain is modelled.
- Regular-expression metacharacters in the infix: the infix is matched as literal characters, and the lemmas that a name is not matched assume an infix without `b`.
- JavaScript numbers: dates and ids are unbounded naturals, with no floating-point precision limit. `Number(match[k])` on captured digit runs is their decimal value.
- JavaScript objects: integer-like keys, which `Object.keys` lists first, and inherited keys visited by `for..in` are not modelled. `NaN` is not a falsy value of the model and is not found by `includes`.
- Bytes are not decoded as UTF-8 when the daemon or the client turns them into text.
- CoreLoggings.Loggings.ClientEnd: the residue of a connection that ends is dropped, as the source does; no write of it is modelled.
- LoggerFolders.RecoverFolder: it returns the rotations in the order they are scheduled; that `rotate_file` is not awaited is not modelled.
- Loggers.Logger.constructor: the creation of the file on disk and `path.normalize` of the folder are not modelled.
- Bilbos.Bilbo.ReturnLogToPool: the pool stays valid only when the entry is not already pooled; logging the same entry twice pools it twice, as the source allows.
- Bilbos.Bilbo.LogToLoggings: the `await this.server` is left out, and `LogEntry.log` is modelled as this method.
- Bilbos.Bilbo.constructor: spawning the daemon (src/bilbo/loggings_spawn.ts), the handshake and `close` are left out.
- src/core/bilbo.ts, src/core/rotate-folder.ts, src/loggings/index.ts and src/index.ts are not part of this model. They hold a socket wrapper, a `mkdir`, argument parsing and a debug script.
- tests/core/logger.test.ts and tests/core/rotate-folder.test.ts exercise an older interface, and no property is drawn from them.

## Findings

| source | as written | input that shows it | evidently intended | confidence | as-written member | corrected member |
|---|---|---|---|---|---|---|
| src/core/loggings.ts:83-89 | the scan for the last newline starts at the last index and increments `i`, so it ends only for an empty chunk or one whose last byte is a newline | the chunk `A\nB` (bytes 65, 10, 66): the loop never ends | scan downward, as src/loggings/loggings.ts:183 does | high (not executed) | CoreLoggings.ScanHangs | CoreLoggings.Reassembler.Data |
| src/core/logger-folder.ts:98-100 | `get_valid_files` lists the rotate folder as uncompressed, so `.gz` archives never count toward the biggest id of today | an empty log folder and a rotate folder holding `bilbo-x-<today>-4.log.gz`: the result is 0, although today's archive has id 4 | list the rotate folder as compressed | medium (not executed) | LoggerFolders.ArchivesIgnored | LoggerFolders.CorrectedIdIsBiggest |
| src/core/log-folder.ts:46-55 | "not in the future" compares year, month and day each on its own | today 2024-1-15 and the file `bilbo-x-2023-12-31-0.log`: the file is dropped | compare the dates in (year, month, day) order | medium (not executed) | LogFolders.EarlierFileDropped | LogFolders.GetLogFilesNotAfter |
