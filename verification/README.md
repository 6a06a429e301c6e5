# kave: a verified model

kave is a key-value server. Its store is log-structured: a transaction goes to a
commit log, then into an in-memory table (the memtable). From time to time the
memtable is flushed to a sorted table file (an SSTable) and the flushed
transactions are marked as ended in the log. A bloom filter per table tells which
tables can be skipped. After a crash the unfinished transactions of the log are
replayed. Clients talk to the server in a colon-framed text protocol, which is read
by a state machine over a buffer that is refilled chunk by chunk.

The model follows the code file by file.

| file | models |
|---|---|
| `Bytes.dfy`, `Utf8.dfy` | byte strings, their order, UTF-8, decimal numbers, sorted key lists |
| `FileNames.dfy` | `<millis>.sst` names and their order |
| `Store.dfy` | operations, transactions, `MemoryStore`; tables with tombstones and how they overlay |
| `Bincode.dfy`, `CommitLog.dfy`, `SSTables.dfy` | the byte formats on disk, their readers and writers |
| `Lsm.dfy` | the store as a state machine of small steps, with a crash possible between any two |
| `LsmReplay.dfy`, `LsmInvariant.dfy`, `LsmRecovery.dfy`, `LsmReaders.dfy`, `LsmTheorems.dfy` | its invariants and theorems |
| `LsmOrders.dfy` | apply order against log order, for every interleaving |
| `LsmStale.dfy` | what lies behind the tables that an accepted bloom file lacks |
| `LsmFiles.dfy` | starting up and looking up from the bytes on disk |
| `LsmStore.dfy` | the store as an object whose methods are proved to make exactly those steps |
| `LsmShutdown.dfy` | what a flush settles in the log, what a crash between operations would leave, and shutdown followed by a start |
| `LsmExamples.dfy` | reachable states in which expected properties fail |
| `Locks.dfy` | the store's tasks, the locks they take and what they do under them |
| `LsmTasks.dfy`, `LsmOutcomes.dfy`, `LsmLives.dfy` | the tasks at work on the store under its locks, how their flushes turn out, and several starts and crashes |
| `DiskFormats.dfy`, `WireFormats.dfy` | the formats byte by byte, on literals |
| `Wire.dfy`, `Proto.dfy`, `Replies.dfy` | the protocol: grammar, reader, replies |
| `Session.dfy`, `Pipelining.dfy`, `Server.dfy` | client sessions: messages in chunks of their own, several in one chunk, and the server's loop over `MemoryStore` |
| `LsmServing.dfy`, `LsmServer.dfy` | the server's loop over the log-structured store, with flushes between its turns |

## How to read the store theorems

A *run* is a list of steps, each of which is enabled when its turn comes (`Legal`):
`Begin` appends a transaction to the log, `Apply` puts it into the memtable and
answers its caller, `WriteTable`, `AddFilter`, `ClearMemtable`, one `AppendEnd` per
transaction and `FinishFlush` make up a flush, `WriteBloomFile` saves the filters,
`Crash` loses everything but the disk, and `Recover` is `initialize`. Any number of
transactions may be between `Begin` and `Apply` at once. A run is `Disciplined` when
no transaction begins while one that shares a key with it is logged but not yet
applied; one transaction in flight at a time is a special case
(`OneInFlightIsDisciplined`). A state is `Readable` when the store is up and no flush
holds its lock. The contents that readers ought to see are `Visible(LiveTable(s))`:
the tables in file-name order, then the memtable, without tombstones.

Assumptions, each of which is visible in a guard or a parameter:

- Transaction ids are never reused in a log (they are random 128-bit ids).
- A flush takes a file name that sorts at or after every table on disk. A
  clock that does not run backwards gives that (`SteadyClockKeepsNameOrder`); what
  exactly a flush needs of its name is `NewTableOnTopIff`.
- Modification times of log and bloom file increase with every write.
- A table file, a bloom file and a log line are each written whole or not at all.
- A bloom filter never denies an inserted key. What it says about other keys is a
  parameter (`noise`) over which every theorem quantifies.
- The `Recover` step and the reader functions of the state machine take log lines and
  table entries as they were written, that is, they assume that every single
  `read_buf` is whole. `LsmFiles.dfy` and the object in `LsmStore.dfy` drop this
  assumption: there how many bytes a read delivers is a parameter, and
  `CrashRecoveryFromFiles`, `GetFromFilesExact` and `LSMStore.Scan` say exactly which
  reads must be whole, and that anything less is an error and never a wrong answer.
- Sizes fit in 64 bits, ids have 16 bytes, keys are UTF-8 (`Fits`, `FitsTable`).

## What does not hold

Where the code does not do what one would expect, the model keeps the code, an
example shows the failure, and an equivalence says when the code is right.

- `get` looks into the tables when the memtable holds a tombstone, so a deleted key
  can come back (`DeletedKeyComesBack`). It is wrong if and only if the memtable holds
  a tombstone and the newest indexed table with the key holds data, and then it returns
  that data (`GetIsMemoryStoreGet`); with a complete index this is the newest table on
  disk (`GetWithCompleteIndex`). `scan` overlays tombstones and has no such exception.
- Overlapping transactions can be applied in another order than they were logged.
  Until the next crash readers see the apply order (`LiveIsApplyOrder`). After it the
  transactions still unfinished are replayed in log order, over the flushed ones, which
  keep their apply order. Whatever is in flight, and the crash after any step, also
  between any two steps of a flush, recovery shows the map that applying the
  transactions in flight next would have shown if and only if, for every key, the last
  writer of the batch followed by them and the last writer of what is replayed write
  the same entry (`RecoveryFinishesIff`; with nothing in flight `RecoveryIsHarmlessIff`,
  and for two transactions `OverlapIsHarmlessIffValuesAgree`).
- A stale bloom file is harmless, but not because all transactions behind the
  tables it lacks are unfinished: a table can stay out of the index for good
  (`MissingTableMayBeFinished`). They are all unfinished if and only if the file has no
  newer table, by name, than the one it lacks; otherwise not one of them is, and newer
  indexed tables hold all of its keys that are not replayed (`StaleBloomFileIsHarmless`).
- File names sort by age while the stamps have equally many digits, and otherwise
  exactly under the condition in `NameOrderIffLeadingDigits`.
- A record is fetched with one `read_buf`. A short one makes the read fail; it never
  yields a wrong value (`LogRoundTrip`, `ReadIndexExact`, `ReadValueExact`). One short
  read of a log line keeps the store from starting (`StartUpExact`).
- A log line torn inside its header reads as a clean end, but later lines are appended
  behind the torn bytes, and not one of them can be read (`TornHeader`).
- The documentation of the reader promises raw bytes in values, with the lengths as the
  primary separator (`src/proto.rs:198-210`). But the reader looks for the newline that
  ends a message from the head of the buffer it stands in, so a newline inside the
  payload can break the NEXT command: no command in a chunk after an update whose value
  has a newline near its end is ever recognised (`NewlineInValueBreaksNext`). With every
  message in chunks of its own, the next message is found if and only if, from the chunk
  with the command's last byte on, there is no newline but the message's own
  (`NextMessageIff`); in earlier chunks newlines do no harm.
- That documentation (`src/proto.rs:194-230`) also calls the newline a separator after
  which the next command starts. In the code, four or more bytes behind the first newline
  of the reader's chunk make it take the word from there and the rest from the head of
  that chunk, whatever stands there: the tail of an earlier message's value or a whole
  command. For every such chunk, what the read returns is exactly what that word and
  those bytes spell (`UsedReadExact`), and how it fails is `UsedReadFailsIff`. So bytes
  inside a VALUE can choose the key that a later lookup reads (`ValueChoosesKey`; on
  literal bytes `LookupOfAnotherKey`). When the chunk begins with a whole command, the
  outcome in terms of the two commands is `PipelinedReadExact` and
  `PipelinedReadIsRightIff` (for two plain messages the word is the second one's,
  `TwoMessages`). But the buffer is not consumed: when the misreading ends inside the
  chunk (`UsedIsCaught` says exactly when, for every chunk, `PipelinedIsCaught` for those
  that begin with a command) the reader is caught there, every later read returns the
  same command, later chunks are never reached, and the reads are right if and only if
  every later command is that command (`ReadAgain`). The server then sends copies of one
  reply for ever (`Server.Handle`).
- On a fresh connection an operation whose first chunk has fewer than four bytes is
  refused (`ShortFirstChunkFails`). A used reader joins up to three bytes that came
  behind a newline with the next chunk (`EnterAfterLine`).
- A socket read of zero bytes is an ordinary read. Before the newline of a message any
  number of them leaves the read incomplete; behind it they count as a missing word, and
  behind a word they make the reader take that word's bytes once more (`EmptyReads`).

## Model

| member | source | states |
|---|---|---|
| LsmFiles.CrashRecoveryFromFiles | src/store/lsm.rs:128-190 | Crash a disciplined run after any step and start again from the bytes on disk: the store comes up if and only if no read of start-up comes short, and then readers see the effect of every transaction the run ever logged |
| LsmFiles.StartUpExact | src/store/lsm.rs:128-190 | Start-up from the encoded log and table files succeeds if and only if every log line, and without a usable bloom file every table index, is delivered whole; then it is exactly the recovery step |
| LsmFiles.LinesFit | src/store/lsm/commit_log.rs:28-33 | In every run whose transactions fit their encoding, every line of the log does |
| LsmRecovery.CrashRecovery | src/store/lsm.rs:128-190 | Once the log has been read: crash a disciplined run after any step, inside a flush or between two end marks, any number of times: after recovery readers see the effect of every transaction the run ever logged, in the order in which it logged them |
| LsmReplay.BeginsOfRun | src/store/lsm/commit_log.rs:100-123 | The log begins exactly the transactions that a run logged, in order; flushes and crashes lose, double and reorder none |
| LsmRecovery.ConcurrentDurability | src/store/lsm.rs:403-423 | In every interleaving of transactions, flushes and crashes, every transaction ever applied is acknowledged, and every acknowledged one is unfinished in the log or in a table that holds an entry for each of its keys, and no logged but unapplied transaction has been ended |
| LsmRecovery.LiveIsLogOrder | src/store/lsm.rs:403-423 | In every disciplined run, after any step, readers see the effect of exactly the applied transactions in the order in which the run logged them, although they were applied in another order |
| LsmRecovery.BatchIsLive | src/store/lsm.rs:321-357 | Before a flush, in the midst of one and among its end marks, what readers see is the tables with the batch on top |
| LsmRecovery.LiveApply | src/store/lsm.rs:403-423 | A pending transaction applied late leaves the map as if it had been applied in log order |
| LsmRecovery.RecoversEnd | src/store/lsm.rs:351-355 | Ending the next transaction of a stored batch takes nothing from what recovery rebuilds |
| LsmRecovery.OrderAlways | src/store/lsm.rs:321-357 | The relation between log, tables, memtable and pending transactions survives every step of every disciplined run |
| LsmInvariant.BaseAlways | src/store/lsm.rs:321-357 | In every run, disciplined or not, log, batch and pending transactions account for each other and every table comes from its recorded batch |
| Lsm.AtAnyTime | src/store/lsm.rs:403-423 | A crash and the logging of a new transaction are possible in every state of a running store, the application of a logged one whenever no flush is under way, and recovery whenever the store is down |
| LsmReplay.TouchesExact | src/store/lsm.rs:408-420 | A transaction touches exactly the keys its operations name |
| Lsm.OneInFlightIsDisciplined | src/store/lsm.rs:403-423 | Runs with one transaction in flight at a time are disciplined |
| Lsm.DisciplinedExact | src/store/lsm.rs:403-423 | A run is disciplined if and only if, in the state before each begin, nothing pending shares a key with the new transaction |
| LsmTheorems.ScanIsMemoryStoreScan | src/store/lsm.rs:440-459 | With flushes, refused flushes and crashes anywhere, a scan returns the same sequence of values as `MemoryStore` after the applied transactions |
| LsmTheorems.GetIsMemoryStoreGet | src/store/lsm.rs:428-438 | For all false positives, a lookup disagrees with `MemoryStore` if and only if the memtable holds a tombstone and the newest indexed table with the key holds data; then it returns that data |
| LsmTheorems.RecoveryRestoresTheView | src/store/lsm.rs:128-190 | With nothing in flight, a crash after any step, also inside a flush, and recovery change nothing a reader can see |
| LsmOrders.LiveIsApplyOrder | src/store/lsm.rs:403-423 | In every interleaving, from any reachable state to the next crash, readers see the plain map with the transactions run in apply order |
| LsmOrders.ScanIsApplyOrderScan | src/store/lsm.rs:440-459 | So a scan returns what `MemoryStore` would and cannot tell when tables were written, with no discipline at all |
| LsmOrders.GetIsApplyOrderGet | src/store/lsm.rs:428-438 | In every interleaving a lookup returns what `MemoryStore` would after the transactions in apply order, except exactly when a memtable tombstone hides data in the newest indexed table with the key |
| LsmOrders.RecoveryFinishesIff | src/store/lsm.rs:181-190 | Crash any run after any step, whatever is in flight: recovery shows the map with the transactions in flight applied next, in a given order, if and only if for every key the last writer of the batch followed by that order and the last writer of what is unfinished in log order write the same entry |
| LsmOrders.RecoveryIsHarmlessIff | src/store/lsm.rs:181-190 | With nothing in flight: recovery shows the map that was there if and only if for every key the last writer of the batch in apply order and the last writer of what is unfinished in log order write the same entry |
| LsmOrders.ReplaysAgreeIff | src/store/lsm.rs:181-190 | Two orders of the same transactions replay alike if and only if their last writers agree |
| LsmOrders.ReplayAgainIff | src/store/lsm.rs:181-190 | Replaying some of the transactions again in another order changes nothing if and only if the last writers of the two orders agree |
| LsmOrders.OverlapIsHarmlessIffValuesAgree | src/store/lsm.rs:403-423 | Two transactions logged in one order and applied in the other show readers the same map after recovery if and only if they agree on their common keys |
| LsmTheorems.SteadyClockKeepsNameOrder | src/store/lsm.rs:334 | Stamps of equal length that do not decrease give names in order |
| LsmReaders.GetInEveryRun | src/store/lsm.rs:428-438 | The same exact characterisation of `get` against the visible contents, in every reachable state of every run |
| LsmReaders.FilterAnswers | src/store/lsm.rs:284-293 | The filters can answer a key with any set of indexed tables that has all tables holding the key, and with no other |
| LsmReaders.GetExact | src/store/lsm.rs:428-438 | The same for any state whose filters meet the index invariant |
| LsmReaders.GetWithCompleteIndex | src/store/lsm.rs:428-438 | In runs that never accept a stale bloom file the exception is: tombstone in the memtable, data in the newest table on disk with the key |
| LsmReaders.SearchIsNewestIndexed | src/store/lsm.rs:284-304 | For every key and all false positives, the filtered search finds the entry of the newest indexed table with the key, and nothing if there is none |
| LsmFiles.GetFromFilesExact | src/store/lsm.rs:295-304 | On table files a lookup gives the same answer, or fails exactly when the memtable does not answer and a read up to the first hit is short |
| LsmReaders.PlainSearchIsOverlay | src/store/lsm.rs:295-304 | Searching all tables from the newest down finds what their overlay from the oldest up holds |
| LsmReaders.NewTableOnTopIff | src/store/lsm.rs:334-336 | A new table's entries end up on top if and only if, for each of its keys that a table with a later name holds, the newest entry on disk is already the same |
| LsmReaders.FilteredSearchIsPlainSearch | src/store/lsm.rs:284-304 | Filters with any false positives never change the result for a key outside the memtable |
| LsmReaders.CompleteFiltersSearch | src/store/lsm.rs:284-304 | With a filter for every table this holds for every key |
| LsmReaders.FiltersNeverHideATable | src/store/lsm.rs:284-304 | In every reachable state the filtered search finds what the unfiltered one finds, for every key the memtable lacks |
| LsmReaders.RebuiltIndexIsComplete | src/store/lsm.rs:150-179 | In runs that never accept a stale bloom file the index lists exactly the tables on disk and filtering never matters |
| LsmStale.StaleBloomFileIsHarmless | src/store/lsm.rs:381-401 | Each key of a table an accepted bloom file lacks is replayed or is in a newer indexed table; the transactions behind that table are all unfinished if and only if the file has no table with a later name, and otherwise not one of them is |
| LsmStale.LackingAlways | src/store/lsm.rs:321-357 | In every run, behind a table without a filter either everything is still in the batch or, once a newer table is indexed and its transactions ended, nothing is unfinished |
| LsmReaders.AcceptanceStep | src/store/lsm.rs:381-401 | Saving an index that has filters makes the bloom file acceptable, a write to the log makes it stale, no other step changes its standing |
| LsmReaders.AcceptedWhileLogRests | src/store/lsm.rs:381-401 | Over a run without another save, the file is accepted if and only if it was and no line has been logged since |
| LsmReaders.TiesAndSaves | src/store/lsm.rs:360-401 | A file as old as the log is taken; a save stores the filters as they are, and nothing if there are none |
| LsmReaders.IndexingAlways | src/store/lsm.rs:359-401 | The index invariant survives every step of every run |
| LsmExamples.DeletedKeyComesBack | src/store/lsm.rs:428-438 | For every key and value: after set, flush, delete a lookup returns the deleted value |
| LsmExamples.MissingTableMayBeFinished | src/store/lsm.rs:150-164 | An accepted bloom file can lack a table whose transactions are all ended |
| LsmStore.LSMStore.constructor | src/store/lsm.rs:82-104 | A new process starts with the disk it finds, the history behind it, and empty memory |
| LsmStore.LSMStore.Initialize | src/store/lsm.rs:128-133 | Start-up comes up if and only if none of its reads comes short, and then has made exactly the recovery step, acknowledging nothing; otherwise it has applied nothing |
| LsmStore.LSMStore.ReadUnfinished | src/store/lsm.rs:181-190 | The unfinished transactions of the log's bytes, or an error when a line does not decode |
| LsmStore.LSMStore.RestoreBloomMap | src/store/lsm.rs:150-164 | The saved index is taken unless the log is younger; otherwise it is rebuilt from the table files, and the old one stays if that fails |
| LsmStore.LSMStore.ReconstructBloomMap | src/store/lsm.rs:166-179 | The rebuilt index has each table with exactly the keys its file yields; it fails if and only if some file cannot be read |
| LsmStore.LSMStore.DoTransact | src/store/lsm.rs:403-423 | Logs and acknowledges (unless replaying), overlays the transaction's effect on the memtable, records its id; nothing else changes |
| LsmStore.LSMStore.ApplyToMemtable | src/store/lsm.rs:408-420 | The loop over the operations overlays their effect |
| LsmStore.LSMStore.Transact | src/store/lsm.rs:461-463 | Does to the visible contents what the transaction does to a plain map, in exactly the steps `Begin` and `Apply` |
| LsmStore.LSMStore.WriteSSTable | src/store/lsm.rs:321-357 | Makes exactly the steps of a flush, changes nothing on an empty memtable or an existing file, answers with a name if and only if that name has become a table, and is invisible to readers while names do not go back |
| LsmStore.LSMStore.Flush | src/store/lsm.rs:321-357 | The new state and the answer of a flush for every clock value |
| LsmStore.LSMStore.EndAll | src/store/lsm.rs:351-355 | Appends one end mark per flushed transaction, in batch order |
| LsmStore.LSMStore.SaveBloomMap | src/store/lsm.rs:359-379 | Saves a non-empty index under a new time and changes nothing a reader sees |
| LsmStore.LSMStore.Shutdown | src/store/lsm.rs:135-148 | Marks the store as shut down in any case; fails, changing nothing else, exactly on a refused flush; otherwise the state is that of a flush followed by a save: no data in memory and an index the next start accepts |
| LsmStore.LSMStore.Get | src/store/lsm.rs:428-438 | The newest-first loop over the files of the filtered tables returns what the model of `get` says, or fails as the model on files says |
| LsmStore.LSMStore.Scan | src/store/lsm.rs:440-459 | From the table files: returns the values a plain map with the visible contents returns for the range, in key order, or fails exactly when a read of a table in the range is short |
| LsmStore.LSMStore.ScanSSTables | src/store/lsm.rs:306-319 | Collects the overlay of all table files, cut to the range, or fails exactly when one of those reads is short |
| LsmStore.FlushRun | src/store/lsm.rs:321-357 | A flush in one go equals its small steps one after another, all of them enabled |
| LsmStore.FlushKeepsLive | src/store/lsm.rs:321-357 | A flush leaves the overlay of tables and memtable as it was |
| LsmStore.TransactRun | src/store/lsm.rs:403-423 | A transaction with a new id is a legal run of two steps |
| LsmShutdown.UnfinishedIsOpenWork | src/store/lsm.rs:351-355 | In every run, whenever no flush is under way, the unfinished transactions of the log are exactly those behind the memtable and those not yet applied |
| LsmShutdown.FlushSettles | src/store/lsm.rs:321-357 | With nothing in flight, after a flush that is not refused nothing is left to replay; if there was anything to flush, no transaction is unfinished |
| LsmShutdown.KeptIsRestored | src/store/lsm.rs:181-190 | When the batch is what the log would replay, a start from the disk alone shows exactly what readers see |
| LsmShutdown.StartedIsKept | src/store/lsm.rs:128-190 | A store that has just started, after whatever history, is such a store |
| LsmShutdown.TransactionIsKept | src/store/lsm.rs:403-423 | A transaction with a new id keeps a store such |
| LsmShutdown.FlushIsKept | src/store/lsm.rs:321-357 | A flush keeps a store such |
| LsmShutdown.CleanRestart | src/store/lsm.rs:135-148 | Shutdown with nothing in flight, then a start: the memtable is empty, a non-empty index is taken back as it was saved, and readers see the same contents; if there was anything to flush, the whole memory comes back as it was |
| Locks.NoDeadlock | src/store/lsm.rs:192-258 | However transactions, lookups, scans, flushes, ticks and shutdowns are started and interleaved, no set of tasks waits in a circle, and a lock held for writing is held by one task only |
| Locks.SomeTaskCanMove | src/store/lsm.rs:192-258 | While a task has steps left, some task can take one |
| Locks.EveryRunFinishes | src/store/lsm.rs:192-258 | Once no new task starts, every run is bounded by the steps left, and a run that cannot go on has let every task finish with no lock held |
| Locks.EveryKindGetsThrough | src/store/lsm.rs:192-258 | In every reachable state a task of any kind but the replay can start, and the tasks can go on so that all of them finish |
| LsmTasks.TasksRunTheStore | src/store/lsm.rs:192-423 | However tasks start and interleave under the locks, whatever transactions they bring and whatever the clock says: each step finds the store in a state in which its actions are possible, so together they are a run of the state machine that ends where the tasks leave the store |
| LsmOutcomes.CheckDecides | src/store/lsm.rs:329-332 | Among whatever other tasks, a flush that reads the memtable with the data held for writing can always go on, and has nothing to do exactly if the memtable is empty |
| LsmOutcomes.CreateDecides | src/store/lsm.rs:333-336 | A flush that comes to its file can go on if and only if the name is taken or sorts last; it is refused exactly if the name is taken, and otherwise leaves the memtable, which is not empty, under that name |
| LsmOutcomes.FinishedFlush | src/store/lsm.rs:321-357 | Of every flush or shutdown that has finished, in any run: at its check there was nothing to do exactly if the memtable was empty; otherwise, with the stamp of a later moment as its name, it was refused exactly if there was such a table at the check, and if not, that table holds the memtable of the check |
| LsmOutcomes.EveryTaskCanFinish | src/store/lsm.rs:192-258 | From every world that tasks can come to, with a clock that does not run backwards and new ids, the tasks can go on so that all of them finish, with no lock held |
| LsmTasks.ReadsAreAtomic | src/store/lsm.rs:428-459 | While a lookup or a scan holds the data lock, whatever other tasks do, no flush is in progress and tables, memtable and filters stay as they are |
| LsmTasks.ShutdownLeavesBloomFile | src/store/lsm.rs:135-148 | A shutdown that has flushed and finished, among whatever other tasks, has left a bloom file on disk |
| LsmLives.HistoriesAreRuns | src/store/lsm.rs:128-258 | Any number of lives, each a start, tasks under the locks and a crash after any action of the store, are a run of the state machine |
| LsmLives.FinishedTransactionsAreKept | src/store/lsm.rs:403-423 | A transaction whose task finished in some life is never lost, whatever tasks and crashes follow: it is unfinished in the log or its batch is in a table |
| Locks.WorkIsGuarded | src/store/lsm.rs:321-357 | In every reachable state a task about to change the memtable, the table files, the index, the log or the shutdown flag holds its guard for writing and no other task holds it; a task about to read one holds the guard and nobody holds it for writing |
| Locks.NoRace | src/store/lsm.rs:403-423 | No two tasks are ever at work on one thing while one of them changes it |
| Locks.TransactionsExclude | src/store/lsm.rs:403-423 | While a transaction holds the log or the data, no other task holds it in any mode |
| Locks.FlushIsAtomic | src/store/lsm.rs:321-357 | From the writing of its table file until it has dropped the transaction ids, a flush holds the data lock and no other task does, whether a tick or a shutdown started it |
| Locks.ProgramsSound | src/store/lsm.rs:192-258 | Every task takes its locks in one global order, never one it holds, and touches things only under their guards |
| Locks.WorkOfTransaction | src/store/lsm.rs:403-423 | A transaction writes the log and then the memtable, and nothing else |
| Locks.LocksOfClients | src/store/lsm.rs:403-459 | A transaction takes the log and then the data for writing; lookups and scans take the data, and lookups in tables the filters, for reading |
| Locks.LocksOfBackgroundTasks | src/store/lsm.rs:192-258 | Which guards a tick, a flush of each outcome and a shutdown take, in which order and mode |
| Locks.WorkOfFlush | src/store/lsm.rs:321-357 | A flush reads the memtable and writes the table file, then its filter, the empty memtable, the ends in the log and the empty list of ids, in this order |
| Locks.WorkOfReaders | src/store/lsm.rs:295-304 | What a lookup in the tables and a scan read, in order; they change nothing |
| Locks.WorkOfBackgroundTasks | src/store/lsm.rs:192-258 | A shutdown raises its flag, flushes, and saves the index unless the flush was refused; a tick looks at the flag and the memtable before it flushes |
| Locks.ReplayMustComeFirst | src/store/lsm.rs:181-190 | The replay takes two locks in the opposite order; started beside a flush, thirteen legal moves bring the two to wait in a circle |
| Tables.VisibleApply | src/store/lsm.rs:408-420 | Overlaying a transaction with tombstones does to the visible map what the transaction does to a plain map |
| Tables.VisibleReplay | src/store/lsm.rs:181-190 | Replaying transactions into an empty memtable refines running them on a plain map |
| Tables.ScanRefinesPlainScan | src/store/lsm.rs:440-459 | Dropping tombstones after overlaying yields exactly the plain scan, values and order |
| Store.MemoryStore.constructor | src/store/mod.rs:56-69 | The store starts empty |
| Store.MemoryStore.Get | src/store/mod.rs:71-74 | The value under the key, or nothing |
| Store.MemoryStore.Scan | src/store/mod.rs:76-84 | The values of the keys from `from` (included) to `to` (excluded), in key order |
| Store.MemoryStore.Transact | src/store/mod.rs:86-95 | The loop folds the operations over the map |
| Store.ScanSplit | src/store/mod.rs:76-84 | A scan of two adjacent ranges is the two scans one after the other |
| Store.ScanEmpty | src/store/mod.rs:76-84 | A range that ends where it starts is empty: the upper end is excluded |
| Store.ScanOne | src/store/mod.rs:76-84 | The smallest range from a key returns exactly that key's value: the lower end is included |
| Bytes.LessExact | src/store/mod.rs:56-60 | Keys are ordered by their first differing byte, unsigned, a proper prefix first |
| Utf8.Utf8Exact | src/proto.rs:498-509 | A byte string is accepted as text if and only if it is the encoding, by arithmetic on scalar values, of some text |
| Bytes.DecimalUnique | src/proto.rs:126-138 | The decimal form of a length is its only digit string without a leading zero |
| Bytes.DecimalExact | src/proto.rs:119-168 | The decimal form of a number is exactly the digit string that denotes it without a leading zero |
| Bytes.DecimalLead | src/proto.rs:126-138 | The decimal form of a positive number has no leading zero |
| Bytes.ParseUsizeExact | src/proto.rs:388-422 | A string is read as a length if and only if it is digits, at most one plus sign before them, below 2^64 |
| Store.LastWriteWins | src/store/mod.rs:86-95 | After a transaction a key holds what the last operation on it says, and its old entry if there is none |
| FileNames.NameOrderIffLeadingDigits | src/store/lsm.rs:334 | A younger table's name sorts after an older one's if and only if the older stamp is at most the younger one's leading digits |
| FileNames.SstNameExact | src/store/lsm.rs:334 | For every stamp, the name is exactly the digits that denote it, without a leading zero, and `.sst` |
| FileNames.SstNamesDiffer | src/store/lsm.rs:334 | Different stamps have different names, whatever their lengths |
| FileNames.GetSstablesAsc | src/store/lsm.rs:269-282 | The listing keeps exactly the entries with something before the ending `.sst`, in path order |
| LsmFiles.ListingIsTheTables | src/store/lsm.rs:269-282 | In every run the data directory, with tables, bloom file and perhaps the log, lists exactly the tables, if and only if the log is not a file of its own there with that ending |
| FileNames.NameOrderIsAgeOrder | src/store/lsm.rs:269-293 | With equally many digits, name order is age order, both ways |
| FileNames.NameOrderBreaksAtDigitChange | src/store/lsm.rs:269-293 | Stamp 999 sorts after stamp 1000 |
| FileNames.ListsAreReversedInAge | src/store/lsm.rs:269-293 | The list that `scan` walks and the list that `get` walks hold the same tables in opposite age order |
| CommitLog.LogFile.constructor | src/store/lsm/commit_log.rs:63-68 | A new log is empty |
| CommitLog.LogFile.BeginTransaction | src/store/lsm/commit_log.rs:99-109 | A file of lines becomes the file of those lines and one begin line |
| CommitLog.LogFile.EndTransaction | src/store/lsm/commit_log.rs:111-121 | A file of lines becomes the file of those lines and one end line |
| CommitLog.LogFile.GetUnfinishedTransactions | src/store/lsm/commit_log.rs:123-154 | The map-and-sort loop returns, in log order, exactly the transactions with no later line of the same id, or an error if a line does not decode |
| CommitLog.UnfinishedExact | src/store/lsm/commit_log.rs:123-154 | The unfinished transactions are those of the lines that begin one and have no later line with its id, in the order of those lines |
| CommitLog.TracksStep | src/store/lsm/commit_log.rs:125-147 | Each line updates the map of open transactions as the definition of being open demands |
| CommitLog.SortingGivesLogOrder | src/store/lsm/commit_log.rs:149-154 | Sorting open entries by line number lists them in log order |
| CommitLog.LogRoundTrip | src/store/lsm/commit_log.rs:28-54 | Reading back any written lines returns exactly those lines if and only if no read of a body comes short; else it stops with an error after lines that were written |
| CommitLog.LinesThen | src/store/lsm/commit_log.rs:35-54 | Written lines with anything behind them come back if no read of them is short, and the reading goes on behind them; otherwise it stops with an error inside them |
| CommitLog.CutLog | src/store/lsm/commit_log.rs:35-54 | A log cut at any byte, whatever the reads deliver: if none before the cut is short it yields the lines before the cut, with a clean end if and only if the cut is at a line boundary or inside a header; otherwise an error after some of those lines |
| CommitLog.TornHeader | src/store/lsm/commit_log.rs:73-83 | Lines appended behind a torn header are lost, whatever the reads deliver: the log reads up to the tear at most and then fails |
| CommitLog.EveryCut | src/store/lsm/commit_log.rs:28-54 | Every byte prefix of a log is such a cut |
| CommitLog.ReadLineShort | src/store/lsm/commit_log.rs:35-54 | A body delivered short is an error |
| CommitLog.BodyRoundTrip | src/store/lsm/commit_log.rs:21-33 | Decoding an encoded line returns it and leaves the bytes behind it |
| CommitLog.LineExact | src/store/lsm/commit_log.rs:21-33 | Exactly the encoded lines decode |
| CommitLog.TruncatedBodyFails | src/store/lsm/commit_log.rs:35-54 | No strict prefix of an encoded line decodes |
| DiskFormats.IntegerLayout | Cargo.toml:64 | Fixed-width integers on examples: little-endian in records, big-endian in headers |
| DiskFormats.EndianLayout | Cargo.toml:64 | Every byte of every integer on disk, in both byte orders |
| DiskFormats.ValueLayout | src/store/lsm.rs:66-79 | The bytes of a table value, with its tag |
| DiskFormats.OpLayout | src/store/mod.rs:13-27 | For every key and value, the bytes of a set and of a delete, with their tags, decode to that operation |
| DiskFormats.LineLayout | src/store/lsm/commit_log.rs:21-33 | The bytes of a log line: big-endian length, tag, id, operations |
| DiskFormats.OpsLayout | src/store/lsm/commit_log.rs:21-33 | For all keys and values, the bytes of a set followed by a delete: one behind the other, with nothing between |
| DiskFormats.OpsFollow | src/store/lsm/commit_log.rs:28-33 | The operations of a transaction stand one behind the other, however many |
| DiskFormats.FileLayout | src/store/lsm/sstable.rs:1-11 | For every key and value, the whole file of a table with that one entry |
| DiskFormats.KeyOrderLayout | src/store/lsm/sstable.rs:80-86 | For every table, the rows of the index and the values behind it both come in key order, one per key |
| DiskFormats.NameLayout | src/store/lsm.rs:334 | A table file's name on an example |
| WireFormats.CommandLayout | src/proto.rs:199-203 | The documentation's three commands are what is printed, and are read as those commands |
| WireFormats.EuroLayout | src/proto.rs:498-509 | A lookup of a key of one three-byte character is printed and read with its length in bytes |
| WireFormats.NullLayout | src/proto.rs:119-124 | The reply for nothing found |
| WireFormats.PayloadLayout | src/proto.rs:126-153 | The bytes of a reply that carries five or 120 bytes |
| WireFormats.SavedLayout | src/proto.rs:155-168 | The bytes of the reply to an update of five or 120 bytes |
| Bincode.ValueRoundTrip | src/store/lsm.rs:66-79 | Decoding an encoded table value returns it and leaves the rest |
| Bincode.ValueExact | src/store/lsm.rs:66-79 | Exactly the encoded values decode: unknown tags and cut bytes do not |
| Bincode.TruncatedValueFails | src/store/lsm.rs:66-79 | No strict prefix of an encoded table value decodes |
| Bincode.OpRoundTrip | src/store/mod.rs:13-27 | Decoding an encoded operation returns it and leaves the rest |
| Bincode.OpExact | src/store/mod.rs:13-27 | Exactly the encoded operations decode: unknown tags, keys that are not UTF-8 and cut bytes do not |
| Bincode.TxRoundTrip | src/store/mod.rs:29-46 | Decoding an encoded transaction returns it and leaves the rest |
| Bincode.TxExact | src/store/mod.rs:29-46 | Exactly the encoded transactions decode |
| SSTables.SSTable.constructor | src/store/lsm/sstable.rs:47-58 | A table has no file until it is opened or written |
| SSTables.SSTable.Open | src/store/lsm/sstable.rs:47-58 | Opening keeps an existing file and creates a missing one empty |
| SSTables.SSTable.Write | src/store/lsm/sstable.rs:60-89 | Writes the whole table file, or refuses and leaves an existing file alone |
| SSTables.SSTable.AppendValues | src/store/lsm/sstable.rs:84-86 | The values follow the index in key order |
| SSTables.BuildIndex | src/store/lsm/sstable.rs:69-75 | The first pass gives each key its offset from the start of the data block |
| SSTables.PatchOffsets | src/store/lsm/sstable.rs:76-79 | The second pass shifts every offset and keeps keys and sizes |
| SSTables.PatchKeepsIndexSize | src/store/lsm/sstable.rs:76-83 | Patching leaves the encoded index as long as it was, so the data block starts where the offsets say |
| SSTables.OffsetsTileTheDataBlock | src/store/lsm/sstable.rs:69-86 | The intervals of the keys tile the data block in key order, from its start to the end of the file |
| SSTables.ValueAtOffset | src/store/lsm/sstable.rs:99-110 | The interval of a key holds the encoding of its value |
| SSTables.IndexRoundTrip | src/store/lsm/sstable.rs:91-97 | Decoding an encoded index returns it and leaves the rest |
| SSTables.TruncatedIndexFails | src/store/lsm/sstable.rs:91-97 | No strict prefix of an encoded index decodes |
| SSTables.HeaderIsIndexSize | src/store/lsm/sstable.rs:91-97 | The header of a table file decodes to the size of its index |
| SSTables.ReadIndexExact | src/store/lsm/sstable.rs:91-97 | Through a buffer of the size the header names, the index comes back if the read delivers it whole, and else the read fails |
| SSTables.ReadValueExact | src/store/lsm/sstable.rs:99-110 | Through a buffer of the size its entry names, a value comes back if the read delivers it whole, and else the read fails |
| SSTables.SearchFileExact | src/store/lsm/sstable.rs:112-123 | A search on the bytes of a table finds the table's entry, or fails exactly when a needed read is short |
| SSTables.SSTable.Search | src/store/lsm/sstable.rs:112-123 | On the file of a memtable: the memtable's entry for the key, or an error exactly when a needed read is short |
| SSTables.SSTable.Scan | src/store/lsm/sstable.rs:125-139 | On the file of a memtable: the memtable's rows in the range, in key order, or an error exactly when a needed read is short |
| SSTables.SSTable.Keys | src/store/lsm/sstable.rs:141-145 | On the file of a memtable: its keys in order, or an error exactly when the index read is short |
| Wire.ParseExact | src/proto.rs:231-512 | The reader's grammar: a stream parses to a command if and only if it is a word, length-prefixed fields of those lengths with a UTF-8 key, and the rest |
| Wire.UnknownOpExact | src/proto.rs:357-387 | With four bytes to read, an operation is reported as unknown if and only if they are none of the three words, a missing word is never reported, and every other error is a field's |
| Wire.ErrorExact | src/proto.rs:388-509 | For each error exactly when it occurs: a colon missing before a field, a length that is not UTF-8 or no number, at the first or the second field; a key that is not UTF-8, of a lookup behind its key and of an update behind its value |
| Wire.DecisionsAreFinal | src/proto.rs:231-512 | What the reader has decided, for an operation or against it, later bytes never change |
| Wire.BehindWordExact | src/proto.rs:388-509 | Behind an operation word, wherever it was found, a command is read if and only if it is of that word and is spelled there |
| Wire.EndsBeforeIff | src/proto.rs:388-509 | A command is read without a byte of what follows if and only if the bytes before that spell it |
| Wire.ParsePrint | src/proto.rs:194-230 | Every printed command parses to itself, whatever bytes its payload holds, and leaves what follows |
| Wire.PrintExact | src/proto.rs:194-230 | The bytes of every printed command exactly: word, and for each field the length in decimal without leading zeros between colons, and the bytes |
| Proto.Proto.constructor | src/proto.rs:95-112 | A new connection has an empty buffer |
| Proto.Proto.Read | src/proto.rs:231-512 | Terminates without a failing index or assertion on every stream; the result is the parse from where the next operation starts, whatever the chunks; the reader is left in the buffer with the operation's last byte, wherever the operation began |
| Proto.EndOfStream | src/proto.rs:275-300 | A stream that ends inside an operation is a close, a cancellation or an error, as it ended |
| Proto.Proto.Refill | src/proto.rs:275-300 | A refill loses no byte: saved bytes come first, then the new chunk |
| Proto.OnStart | src/proto.rs:303-330 | Skips to the next operation and keeps the account of unread bytes |
| Proto.OnReadOp | src/proto.rs:331-387 | Matches a word or fails, keeping the account |
| Proto.OnKeyLen | src/proto.rs:388-422 | Reads a length between colons through any refills, keeping the account |
| Proto.OnEcho | src/proto.rs:423-434 | Moves message bytes, keeping the account |
| Proto.OnKey | src/proto.rs:435-456 | Moves key bytes, keeping the account; the arm for an echo is never reached |
| Proto.OnValueLen | src/proto.rs:457-485 | Reads the second length, keeping the account |
| Proto.OnValue | src/proto.rs:486-497 | Moves value bytes, keeping the account |
| Proto.OnDone | src/proto.rs:498-509 | Checks the key and returns what the stream promised |
| Proto.NotRefilled | src/proto.rs:275-300 | A read that leaves more unread than was to come behind its buffer has left buffer and stream untouched |
| Session.ChunkIndependence | src/proto.rs:231-512 | On a fresh connection the outcome, good or bad, depends only on the bytes and not on where chunks are cut behind the fourth |
| Session.PrintedCommandIsRead | src/proto.rs:231-512 | A printed command with arbitrary payload, however it is cut behind four bytes, is read as that command |
| Session.ShortFirstChunkFails | src/proto.rs:331-348 | A fresh connection reports a missing word if and only if its first chunk has fewer than four bytes, whatever follows |
| Session.EmptyReads | src/proto.rs:178-181 | Any number of zero-length reads leaves a used reader incomplete before a newline and its outcome unchanged behind a later chunk; right behind the newline they are a missing word, and behind a word they hand over the bytes from that word on once more |
| Session.NextCommand | src/proto.rs:303-330 | A message in chunks of its own, whatever bytes its payload and filler hold, is read as its command |
| Session.LeftAt | src/proto.rs:231-512 | and leaves the reader in the chunk with the command's last byte, with everything behind it still to come |
| Session.LeftBetween | src/proto.rs:303-330 | If from that chunk on there is no newline but the message's own, the reader is between that message and the next |
| Session.NextStartsRightIff | src/proto.rs:303-330 | A used reader starts the next read at the head of the next message's chunks if and only if what is left of the last one is a single line |
| Session.NextMessageIff | src/proto.rs:303-330 | After a message in chunks of its own the next message is found if and only if that message was well cut |
| Session.CleanIsWellCut | src/proto.rs:206-210 | A message without inner newlines is well cut however it is cut |
| Session.NewlineInValueBreaksNext | src/proto.rs:303-330 | After an update in one chunk whose value has its first newline among its last three bytes: whatever the next chunk holds, the next read fails with an unknown operation |
| Pipelining.EnterAfterLine | src/proto.rs:303-330 | Where the reader goes when bytes of the next message share the chunk with a newline: fewer than four are kept, four or more leave it in the old chunk |
| Pipelining.UsedReadExact | src/proto.rs:357-387 | In any chunk with four bytes behind its first newline, whatever that line is part of: the next read returns a command if and only if the word behind the newline is the command's and that word with the bytes at the head of the chunk, and what follows, spells it |
| Pipelining.UsedReadFailsIff | src/proto.rs:357-509 | In any such chunk the next read fails with an unknown operation if and only if there is no word behind the newline, and with any other error if and only if the fields at the head of the chunk have that fault |
| Pipelining.UsedIsCaught | src/proto.rs:248 | In any such chunk the reader is caught on a command if and only if the word behind the newline and the bytes at the head of the chunk spell it within the chunk |
| Pipelining.StandsIn | src/proto.rs:275-300 | A reader whose command ended in a later chunk stands in that chunk |
| Pipelining.ValueChoosesKey | src/proto.rs:357-387 | An update whose value ends with three bytes and a printed key, cut before those, with a lookup behind it in the same chunk: the update is read, and then the reader returns a lookup of the key in the value and is caught |
| Pipelining.LookupOfAnotherKey | src/proto.rs:357-387 | On literal bytes: a lookup of `foo` is read as a lookup of `k`, whatever follows |
| Pipelining.PipelinedReadExact | src/proto.rs:357-387 | The outcome of the next read in a chunk that begins with a command and has four bytes behind its first newline, whatever the payload, the filler and whatever follows |
| Pipelining.TwoMessages | src/proto.rs:194-230 | Two messages without inner newlines make such a chunk, and the word behind the newline is the second one's |
| Pipelining.PipelinedReadIsRightIff | src/proto.rs:357-387 | That read returns a command if and only if the word behind the newline is its word and it repeats the command at the head of the chunk, looks up the key that one set, or sets the key that one looked up to a value spelled right behind it |
| Pipelining.PipelinedIsCaught | src/proto.rs:248 | The reader is caught in such a chunk if and only if the word behind the newline is that of the command at its head, a lookup's behind an update, or an update's behind a lookup with a value spelled in the chunk right behind that |
| Pipelining.CaughtStays | src/proto.rs:275-300 | A read by a caught reader leaves buffer and stream as they were |
| Pipelining.ReadAgain | src/proto.rs:231-512 | Any number of reads by a caught reader return one and the same command, so they are right if and only if only that command was sent |
| Server.Handle | src/server/client.rs:41-89 | Over `MemoryStore` and any stream, every turn does what the reader's outcome says and nothing else, up to the turn that stops. On a well-cut session, payload newlines included where they do no harm, the server answers turn by turn as a plain map answers, ends with the map's contents and closes, or reports a broken socket. A fresh connection fails before any answer exactly if its first four bytes are no word, there are fewer, the fields behind the word have that fault, or the socket breaks before the command is whole. With a whole command at the head of the first chunk it answers that, and then stops as the next read in that chunk says, or answers what that misread, or, if it is caught there, sends copies of one reply for as many turns as there are |
| Server.SessionRunsItsUpdates | src/server/client.rs:76-85 | A session leaves the contents that its updates make when they are run as store operations |
| Server.LastUpdateStays | src/server/client.rs:76-85 | After a session a key has the value of its last update, or what it had when there was none |
| Server.LookupsSeeUpdates | src/server/client.rs:66-75 | A lookup is answered with the value of the last earlier update of its key, else with what was there, else with null |
| Server.EchoesAndUpdates | src/server/client.rs:62-85 | An echo is answered with its bytes, an update with the length of its value |
| Server.Turn | src/server/client.rs:51-88 | One turn goes on exactly after a command, which it answers; it fails with exactly the reader's error or a broken socket's; it closes exactly when the stream ended otherwise; nothing else changes |
| Server.StatusExact | src/server/client.rs:52-60 | The same of every outcome of the reader and every end of the stream |
| Server.Dispatch | src/server/client.rs:51-88 | One command changes the store and produces the reply as a plain map does |
| LsmServer.Handle | src/server/client.rs:41-89 | The same over the log-structured store and any stream, with flushes before any of its turns under a steady clock and whatever the filters answer: turn by turn as a plain map with the store's contents, unless a read of a table file is short in a lookup, which panics; a well-cut session is answered so far as it got; no table is lost or changed, and tables appear only by flushes that are due. With new ids, from a store that a crash would not change, after any number of turns a start from the disk alone shows exactly the contents that the answers so far made |
| LsmServer.Turn | src/server/client.rs:51-88 | One turn over the log-structured store: it goes on, fails and closes exactly as the reader's outcome says, or panics in a lookup; an answered update is one logged and applied transaction, and everything else leaves the store as it was |
| LsmServer.FlushBetween | src/store/lsm.rs:192-258 | A flush that is due between two turns is made, and only such a one; it keeps what clients see, keeps lookups right, keeps the file names in order, and leaves a store that a crash would not change |
| LsmServer.Dispatch | src/server/client.rs:51-88 | One command changes the visible contents and produces the reply as a plain map does; an update puts its begin line on disk and, with a new id, is exactly the steps that log and apply it; other commands change nothing; only a lookup with a short read fails |
| LsmServing.RunsServe | src/store/lsm.rs:403-423 | Every run whose transactions only set keys, with crashes and flushes anywhere, leads to a store without tombstones in memory and with a usable index |
| LsmServing.LookupsAreRight | src/store/lsm.rs:428-438 | In such a store `get` has no exception |
| LsmServing.FlushServes | src/store/lsm.rs:321-357 | A flush keeps a store such |
| Replies.RepliesDecode | src/proto.rs:119-168 | A length-first decoder recovers every sequence of replies from their concatenation, whatever colons and newlines the payloads hold |
| Replies.RepliesAreUnique | src/proto.rs:119-168 | Different replies to the same requests never give the same bytes |
| Replies.DecodeEncode | src/proto.rs:119-168 | One encoded reply decodes to its payload and leaves the rest |
| Replies.EncodeExact | src/proto.rs:119-168 | The bytes of every reply exactly: `null` and a newline; or the length in decimal without leading zeros, a colon, the payload and a newline; an update is answered with its length in such a frame |

## Left out

- TLS, sockets, DNS, the accept loops, shutdown channels, the cluster protocol, configuration, certificates and the `ring` wrappers: plumbing around the core.
- When a flush is due (`should_flush_memtable`): flushes may happen at any time.
- The inside of the bloom filters: only that an inserted key is never denied.
- A crash in the middle of one file write, I/O errors of the log and of table files, events, tracing, and panics.
- A store that serves transactions before `initialize` has replayed the log.
- The lock around the log: the state machine lets a transaction begin between two end marks, which the code does not, so its theorems cover more runs than the code has; `LsmTasks.dfy` has the locks.
- Handle: covers the first `turns` turns of the endless loop, for any `turns`, with one session at a time; a flush falls between two turns. For a session that puts two commands into a chunk other than the first, its first clause gives the turns and `UsedReadExact`, `UsedReadFailsIff` and `UsedIsCaught` give the reads; there is no closed form of the whole output.
- Proto.Proto.Read: takes a finite list of reads followed by end of stream, cancellation or an error.
- ReadLine: gives a bound on the unread bytes only; `LogRoundTrip` and `CutLog` say what it reads.
- Store.MemoryStore.Scan: needs `from <= to`, as do the scans of `LSMStore` and `SSTable`, because a reversed range panics in the source.
