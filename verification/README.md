# Verified model of a multi-connection SQLite runtime on the JVM

The repository runs SQLite, compiled to WebAssembly, on the JVM with many connections to one database.
SQLite itself is foreign code; what is hand-written around it is the hard part, and is what this project
models: how threads hand requests to workers, who owns a database file, how guest memory is addressed,
which statements are alive, who holds which lock, and how dates become numbers and text.

| file | models |
|---|---|
| `RequestChannel.dfy` | the two-address request/done futex channel, and the single-word channel it replaced |
| `WalPool.dfy`, `PoolProgress.dfy` | the pool of channels: borrowing, retrying, the read-write lock; that every call comes to an end |
| `OwnerLock.dfy` | the sidecar ownership lock with delete/recreate races and the token round trip |
| `PagedMemory.dfy` | chunked reads and writes over 64 KiB pages against one flat memory |
| `JulianDay.dfy` | Julian day numbers against the civil calendar |
| `Binary64.dfy`, `JulianDouble.dfy` | IEEE doubles, and the same conversion and the REAL encoding with every operation rounded |
| `Decimal.dfy`, `DateText.dfy`, `DateLetters.dfy`, `DatePattern.dfy` | decimal rules, date printer and parser, what each letter means, pattern splitting |
| `RegexText.dfy`, `DateExpression.dfy` | escaping of literal text, the compiled regular expression and what it matches |
| `StatementCache.dfy`, `Session.dfy` | the statement cache, user statements, query and retry paths |
| `ShmArena.dfy` | the wal-index bump allocator |
| `FileLocks.dfy`, `ShmLocks.dfy` | file lock levels and the eight wal-index slots |
| `BatchBuffer.dfy` | the parameter buffer of a prepared statement |
| `Runtimes.dfy` | reference-counted shared runtimes |
| `IoQueue.dfy` | the I/O handler's two-level queue and its parking |
| `SpawnHandshake.dfy` | starting and stopping a parked worker |
| `Layout.dfy`, `Common.dfy` | rows laid end to end; `Option` and 32-bit wrap-around |

`dafny verify dfyconfig.toml` checks everything.

Concurrent protocols are state machines: a step is one atomic access, `Enabled` says when it can be taken,
and results are stated over every run. Objects that change in place are classes whose methods are tied to
functions of the old state; what is promised is then proved of those functions. The engine, the clock, the
scheduler, random tokens and failures (prepare, bind, step, close, spawn, handler exceptions) are
parameters or free choices.

## Assumptions

- Futex: a wait sleeps only if the word still has the expected value, a notify with a sleeper that has no
  pending wakeup provides one, and any notify may add one; a woken waiter is not told for whom.
- Ownership lock: a file lock belongs to the channel that took it and survives closing another channel on
  the same file (the POSIX hazard the source describes would break this), tokens are non-zero and never
  repeat, and a lock is closed once; what a second close does is stated separately.
- Engine: prepare, bind and step are arbitrary functions of the statement's own state and the moment of the
  call, results are finite, and new handles are non-zero and not live.
- Regular expressions: between \Q and \E every character stands for itself, an open quotation runs to the
  end, and outside quotations letters, digits and other non-operators stand for themselves, \\ for a
  backslash, and \E is illegal (class Pattern of java.util.regex). An expression with any other operator
  counts as not being plain text.
- Doubles round to nearest, ties to even (IEEE 754); overflow to infinity does not occur here.
- IoHandlerContext.delayNanos is not positive once deadlineNanos has passed. The park that follows a
  deadline with nothing handled is safe only then; what happens otherwise is stated separately.
- Port close is an atomic test-and-set, as is cancelling a registration; one event-loop thread runs the
  handler.

## Where code and comments differ

The model follows the code.

- `row_cb2` is said to capture the first row; it captures the first row whose first column is not NULL.
- `checkBounds` lets through a request that starts in range and overflows 32 bits, and refuses everything
  once memory has 32768 pages.
- `runUser` is said to leave no earlier values behind; that holds exactly when no position beyond the given
  parameters was bound before. Its callers in the repository always pass all parameters
  (SqlitePreparedStatement.kt:48-56).
- `escapeRegex` loses text where a backslash it left unguarded meets an E, and forgets to close the
  quotation when a field ends in a backslash and a doubled quote.
- The REAL encoding of a timestamp beyond 53 bits turns the last millisecond of a day into the next midnight.
- `dropFile` is meant for one file; it also drops files whose name extends "name#".
- `execute()` on a prepared statement with rows pending binds the first pending row, not the current parameters.
- A worker that returns normally before reaching its trampoline leaves `spawnPthread` waiting, because only
  failures are forwarded; the comment promises failures are, and they are.
- If closing the last in-memory runtime throws, the registry keeps it with no reference and hands it out again;
  and a runtime whose first statements fail (SqliteDataSource.kt:83-97) is dropped without being closed.

## Model

| member | source | states |
|---|---|---|
| `RequestChannel.CaptureIsFirstNonNull` | modules/sqlite/wasm-lib/extras/conn_worker.c:119-128 | over all rows of a statement the callback keeps exactly the first row whose first column is not NULL, and 0 when there is none |
| `RequestChannel.ResultIsFirstValue` | modules/sqlite/wasm-lib/extras/conn_worker.c:119-128 | the first value v at the head of a row, after rows that are empty or begin with NULL, is the result |
| `RequestChannel.ResultWithoutValue` | modules/sqlite/wasm-lib/extras/conn_worker.c:119-128 | when every row is empty or begins with NULL the result is 0 |
| `RequestChannel.StepInv` | modules/sqlite/wasm-lib/extras/conn_worker.c:157-175 | every atomic step of driver, worker and engine keeps the channel invariant, under wakeup counters that do not know their waiter and no re-check on wake |
| `RequestChannel.RunInv` | modules/sqlite/wasm-lib/extras/conn_worker.c:108-175 | the invariant holds in every state of every interleaving |
| `RequestChannel.NoTornRead` | modules/sqlite/wasm-lib/extras/kotlin/SqliteWalPool.kt:42-54 | while the worker reads or executes, the sql buffer is stable and the driver is not writing it; while the driver reads the reply, rc and result are stable |
| `RequestChannel.ExactlyOnce` | modules/sqlite/wasm-lib/extras/kotlin/SqliteWalPool.kt:39-54 | in every reachable state the i-th execution ran the C string of the i-th posted SQL, the i-th answer is that execution's own rc and the first value at the head of its rows (0 when there is none), and at most one request is unanswered |
| `RequestChannel.NoDeadlock` | modules/sqlite/wasm-lib/extras/conn_worker.c:163-174 | a pending request (or stop) never coexists with both sides blocked: some party can move |
| `RequestChannel.StepDescends` | modules/sqlite/wasm-lib/extras/kotlin/SqliteWalPool.kt:44-53 | every step by anyone, other than a new call, lowers one well-founded measure |
| `RequestChannel.SubmissionStep` | modules/sqlite/wasm-lib/extras/kotlin/SqliteWalPool.kt:39-54 | a step either leaves the submission under way or returns exactly one answer, for its own SQL |
| `RequestChannel.SubmitReturns` | modules/sqlite/wasm-lib/extras/kotlin/SqliteWalPool.kt:39-54 | on every infinite schedule, fair or not, submitOnce returns, with one more answer and all earlier answers untouched |
| `SingleWordChannel.TheftDeadlocks` | modules/sqlite/wasm-lib/extras/conn_worker.c:78-93 | with one word for both directions there is a run into posted request, both parties asleep, no move possible (the deadlock ConnWorkerBlockingSpikeTest.kt:19-33 describes) |
| `WalPool.ConservedStep` | modules/sqlite/wasm-lib/extras/kotlin/SqliteWalPool.kt:66-73 | each channel is in the idle queue exactly once or held by exactly one thread, after every step |
| `WalPool.PoolStepInv` | modules/sqlite/wasm-lib/extras/kotlin/SqliteWalPool.kt:39-107 | every step of any number of threads, workers and the engine keeps the pool invariant (channels, read-write lock, progress of each call) |
| `WalPool.RunPoolInv` | modules/sqlite/wasm-lib/extras/kotlin/SqliteWalPool.kt:66-107 | the pool invariant in every state of every run |
| `WalPool.SingleWriter` | modules/sqlite/wasm-lib/extras/kotlin/SqliteWalPool.kt:76-107 | while an exec is inside, no other call holds the lock or a channel |
| `WalPool.LockIsInside` | modules/sqlite/wasm-lib/extras/kotlin/SqliteWalPool.kt:76-107 | over every run the write lock is held exactly by the exec inside and the read lock exactly by the queries inside |
| `WalPool.EmptyPoolAdmits` | modules/sqlite/wasm-lib/extras/kotlin/SqliteWalPool.kt:76-107 | when every call has returned, any exec or query can begin |
| `WalPool.AnswerIsReply` | modules/sqlite/wasm-lib/extras/kotlin/SqliteWalPool.kt:66-107 | what the caller is given after the channel went back is the outcome submit left with |
| `WalPool.ReplyIsOwn` | modules/sqlite/wasm-lib/extras/kotlin/SqliteWalPool.kt:57-73 | a call that leaves submit carries code and value of the last execution on its channel, every execution since it borrowed the channel ran its own SQL, and BUSY comes only after the 101st attempt |
| `WalPool.OnlyBusyIsRetried` | modules/sqlite/wasm-lib/extras/kotlin/SqliteWalPool.kt:57-64 | in every run, of the executions behind a reply all but the last answered 5 and there are at most 101; a call whose first execution answered something else was executed exactly once |
| `WalPool.TooLongIff` | modules/sqlite/wasm-lib/extras/kotlin/SqliteWalPool.kt:41 | a call is refused, and nothing executed for it, if and only if its SQL has 4072 bytes or more |
| `WalPool.PutNeverBlocks` | modules/sqlite/wasm-lib/extras/kotlin/SqliteWalPool.kt:66-73 | when a borrower gives its channel back the bounded queue has room |
| `WalPool.PoolNeverStuck` | modules/sqlite/wasm-lib/extras/kotlin/SqliteWalPool.kt:66-107 | while any call is inside a pool with a channel, some thread inside or some worker can move, although readers wait for channels with the lock held |
| `PoolProgress.PoolDescends` | modules/sqlite/wasm-lib/extras/kotlin/SqliteWalPool.kt:57-107 | every step of any thread, worker or the engine, other than the start of a new call, lowers one well-founded measure of the whole pool, retries included |
| `PoolProgress.CallsEnd` | modules/sqlite/wasm-lib/extras/kotlin/SqliteWalPool.kt:57-107 | on every infinite schedule, fair or not, new calls keep beginning: the calls inside never go on for ever by themselves |
| `PoolProgress.AllReturn` | modules/sqlite/wasm-lib/extras/kotlin/SqliteWalPool.kt:57-107 | from every reachable pool with a channel all calls inside can return without a new one |
| `OwnerLock.StepInv` | modules/sqlite/src/main/kotlin/org/example/sqlite/DbOwnerLock.kt:36-76 | every step of any agent (open, lock, token write, re-open, read back, retry, delete, release, crash) keeps the invariant over path, inodes, locks and tokens |
| `OwnerLock.RunInv` | modules/sqlite/src/main/kotlin/org/example/sqlite/DbOwnerLock.kt:45-76 | the invariant in every state of every interleaving |
| `OwnerLock.MutualExclusion` | modules/sqlite/src/main/kotlin/org/example/sqlite/DbOwnerLock.kt:36-76 | at most one owner; from verification to its own delete the owner's locked inode is the one the path names |
| `OwnerLock.RoundTripDecidesIdentity` | modules/sqlite/src/main/kotlin/org/example/sqlite/DbOwnerLock.kt:59-70 | reading the own token back succeeds if and only if the locked inode is the path's current inode |
| `OwnerLock.OrphanStaysOrphan` | modules/sqlite/src/main/kotlin/org/example/sqlite/DbOwnerLock.kt:71-73 | an inode given up as orphan is never named by the path again |
| `OwnerLock.SoloAcquireSucceeds` | modules/sqlite/src/main/kotlin/org/example/sqlite/DbOwnerLock.kt:47-70 | an undisturbed acquire can always start and becomes owner in its first attempt whenever the named sidecar is not locked, changing nobody else |
| `OwnerLock.RetrySucceeds` | modules/sqlite/src/main/kotlin/org/example/sqlite/DbOwnerLock.kt:47-74 | from every orphan with an attempt left the next attempt, undisturbed, makes the agent owner whenever the named sidecar is not locked |
| `OwnerLock.AttemptsLeft` | modules/sqlite/src/main/kotlin/org/example/sqlite/DbOwnerLock.kt:47-74 | over every run the attempts left are 16 less the retries since the start |
| `OwnerLock.FailedOnlyWhen` | modules/sqlite/src/main/kotlin/org/example/sqlite/DbOwnerLock.kt:47-75 | over every run an acquire has failed only if its last step met a locked inode or it has retried exactly 16 times |
| `OwnerLock.CloseFrees` | modules/sqlite/src/main/kotlin/org/example/sqlite/DbOwnerLock.kt:36-42 | close frees the lock and, where the delete works, the path; nobody else changes |
| `OwnerLock.StaleDeleteHarmlessIff` | modules/sqlite/src/main/kotlin/org/example/sqlite/SqliteWal.kt:65-74 | a second close keeps the invariant if and only if nobody owns the database or has just verified it |
| `OwnerLock.SecondCloseAdmitsSecondOwner` | modules/sqlite/src/main/kotlin/org/example/sqlite/SqliteWal.kt:65-74 | the unguarded second close beside a live owner lets every undisturbed acquire become a second owner |
| `OwnerLock.SecondCloseBeforeReadBack` | modules/sqlite/src/main/kotlin/org/example/sqlite/SqliteWal.kt:65-74 | a second close between an agent's re-open and read back makes it owner of an unnamed inode, and a second owner follows |
| `PagedMemory.AcceptsIsInRangeIff` | modules/sqlite/src/main/kotlin/org/example/sqlite/StatelessBulkMemory.kt:42-55 | in 32-bit arithmetic checkBounds decides correctly if and only if the request does not start in range and overflow |
| `PagedMemory.FullMemoryRefusesEverything` | modules/sqlite/src/main/kotlin/org/example/sqlite/StatelessBulkMemory.kt:64 | with 32768 pages the limit wraps and every request is refused |
| `PagedMemory.ReadAfterWrite` | modules/sqlite/src/main/kotlin/org/example/sqlite/StatelessBulkMemory.kt:61-117 | the flat write is read back, and a disjoint range is untouched |
| `PagedMemory.FlatSplice` | modules/sqlite/src/main/kotlin/org/example/sqlite/StatelessBulkMemory.kt:69-79 | overwriting part of one page is overwriting the corresponding part of the flat memory |
| `PagedMemory.FlatSlice` | modules/sqlite/src/main/kotlin/org/example/sqlite/StatelessBulkMemory.kt:104-116 | part of one page is the corresponding slice of the flat memory |
| `PagedMemory.Memory.PutChunk` | modules/sqlite/src/main/kotlin/org/example/sqlite/StatelessBulkMemory.kt:69-79 | one round of the write loop changes exactly its part, and fails exactly when it leaves memory or data |
| `PagedMemory.Memory.CopyIn` | modules/sqlite/src/main/kotlin/org/example/sqlite/StatelessBulkMemory.kt:65-79 | the write loop copies everything, or traps with exactly a prefix written |
| `PagedMemory.Memory.Write` | modules/sqlite/src/main/kotlin/org/example/sqlite/StatelessBulkMemory.kt:61-79 | write is refused without effect, changes exactly [addr, addr+size), or (only when the check overflowed) traps after a prefix; each case exactly characterised |
| `PagedMemory.Memory.ReadBytes` | modules/sqlite/src/main/kotlin/org/example/sqlite/StatelessBulkMemory.kt:98-117 | readBytes answers exactly for in-range requests, with the flat slice |
| `PagedMemory.Memory.CopyOut` | modules/sqlite/src/main/kotlin/org/example/sqlite/StatelessBulkMemory.kt:100-117 | the read loop returns the flat slice or traps exactly when it would leave memory |
| `JulianDay.StepIsNextDay` | modules/sqlite-jdbc/src/main/java/io/roastedroot/sqlite4j/jdbc3/JDBC3ResultSet.java:1057-1088 | the dates of consecutive day numbers are consecutive civil days, across months, leap days, centuries and the 1582 reform |
| `JulianDay.CenturyOfYear` | modules/sqlite-jdbc/src/main/java/io/roastedroot/sqlite4j/jdbc3/JDBC3ResultSet.java:1068-1079 | the century read off the day number is the century of the March-year it lands in |
| `JulianDay.ConversionIsCivil` | modules/sqlite-jdbc/src/main/java/io/roastedroot/sqlite4j/jdbc3/JDBC3ResultSet.java:1057-1088 | for every day number from 0 up the computed date is the civil calendar's (counted day by day), before the 32-bit limit |
| `JulianDay.ToDateIsCivilIff` | modules/sqlite-jdbc/src/main/java/io/roastedroot/sqlite4j/jdbc3/JDBC3ResultSet.java:1057-1088 | for every non-negative int the result is the civil date, and valid, if and only if the day is at most 2147438064; past it the sum wraps |
| `JulianDouble.ConversionSurvivesRounding` | modules/sqlite-jdbc/src/main/java/io/roastedroot/sqlite4j/jdbc3/JDBC3ResultSet.java:1064-1088 | with every operation rounded to a double the conversion gives the same date for every non-negative int |
| `JulianDouble.WholeDayRoundTrip` | modules/sqlite-jdbc/src/main/java/io/roastedroot/sqlite4j/core/CorePreparedStatement.java:128-130 | every whole-day timestamp written as REAL comes back as the civil date of its day, in doubles |
| `JulianDouble.EveryTimeComesBackIff` | modules/sqlite-jdbc/src/main/java/io/roastedroot/sqlite4j/core/CorePreparedStatement.java:128-130 | in doubles, every time of day of a day comes back as that day's civil date if and only if the day's milliseconds fit 53 bits (day at most 104249990 after 1970) |
| `JulianDouble.LastMillisecondIsMidnight` | modules/sqlite-jdbc/src/main/java/io/roastedroot/sqlite4j/core/CorePreparedStatement.java:130 | past that, the last millisecond of every day is written as the next midnight |
| `JulianDouble.LostTimestamp` | modules/sqlite-jdbc/src/main/java/io/roastedroot/sqlite4j/core/CorePreparedStatement.java:130 | timestamp 9007199308799999 reads as the following day |
| `JulianDay.EpochDay` | modules/sqlite-jdbc/src/main/java/io/roastedroot/sqlite4j/core/CorePreparedStatement.java:128-130 | day 2440588 is 1 January 1970 |
| `Decimal.AppendPadded` | modules/sqlite-jdbc/src/main/java/io/roastedroot/sqlite4j/date/FastDatePrinter.java:785-795 | a fitting value is appended as exactly the padded digits; a larger one overwrites the text before the field, or throws when there is none |
| `Decimal.PaddedFaithfulIff` | modules/sqlite-jdbc/src/main/java/io/roastedroot/sqlite4j/date/FastDatePrinter.java:785-795 | earlier text survives and the field denotes the value if and only if the value fits the field |
| `DateText.Format` | modules/sqlite-jdbc/src/main/java/io/roastedroot/sqlite4j/date/FastDatePrinter.java:470-475 | the rule loop, with the padded rule in place, produces the printed text of the components |
| `DateLetters.DayLettersPrint` | modules/sqlite-jdbc/src/main/java/io/roastedroot/sqlite4j/date/FastDatePrinter.java:211-245 | d, D, F, w and W print the digits of day of month, day of year, day of week in month, week of year and week of month |
| `DateLetters.TimeLettersPrint` | modules/sqlite-jdbc/src/main/java/io/roastedroot/sqlite4j/date/FastDatePrinter.java:217-256 | H, K, m, s and S print the digits of hour of day, hour, minute, second and millisecond |
| `DateLetters.ShiftedLettersPrint` | modules/sqlite-jdbc/src/main/java/io/roastedroot/sqlite4j/date/FastDatePrinter.java:200-253 | h and k print hour 0 as 12 and 24, and M prints the month plus one |
| `DateLetters.YearLetterPrints` | modules/sqlite-jdbc/src/main/java/io/roastedroot/sqlite4j/date/FastDatePrinter.java:193-199 | yy prints the year modulo 100, any other width the whole year with at least four digits |
| `DateLetters.DayLettersParse` | modules/sqlite-jdbc/src/main/java/io/roastedroot/sqlite4j/date/FastDateParser.java:495-551 | digits under d, D, F, w and W set exactly that field to their value |
| `DateLetters.TimeLettersParse` | modules/sqlite-jdbc/src/main/java/io/roastedroot/sqlite4j/date/FastDateParser.java:495-551 | digits under H, K, m, s and S set exactly that field to their value |
| `DateLetters.ShiftedLettersParse` | modules/sqlite-jdbc/src/main/java/io/roastedroot/sqlite4j/date/FastDateParser.java:885-918 | 12 under h and 24 under k become 0, and M sets the month less one |
| `DateLetters.YearLetterParses` | modules/sqlite-jdbc/src/main/java/io/roastedroot/sqlite4j/date/FastDateParser.java:728-740 | a year below 100 under y or yy becomes the year of the hundred-year window with that ending; otherwise it is taken as written |
| `DateLetters.TooLargeToParse` | modules/sqlite-jdbc/src/main/java/io/roastedroot/sqlite4j/date/FastDateParser.java:711-740 | under every letter a number is an error if and only if it is 2^31 or more |
| `DateLetters.LettersKnown` | modules/sqlite-jdbc/src/main/java/io/roastedroot/sqlite4j/date/FastDateParser.java:484-551 | the twenty letters both sides know, X as the only one with a width limit, and the fourteen that are numbers (M only up to width two) |
| `DateLetters.TenOFive` | modules/sqlite-jdbc/src/main/java/io/roastedroot/sqlite4j/date/FastDatePrinter.java:217-225 | HH:mm:ss at five minutes and seven seconds past ten prints 10:05:07 |
| `DateText.AdjustYearIff` | modules/sqlite-jdbc/src/main/java/io/roastedroot/sqlite4j/date/FastDateParser.java:425-428 | a year survives two-digit printing and adjustment if and only if it lies in the hundred years from the start |
| `DateText.ModifyUndoes` | modules/sqlite-jdbc/src/main/java/io/roastedroot/sqlite4j/date/FastDateParser.java:885-918 | month -1, hour 12/24 to 0 and the year window undo what the printer shows |
| `DateText.PrintIsText` | modules/sqlite-jdbc/src/main/java/io/roastedroot/sqlite4j/date/FastDatePrinter.java:690-946 | printing fitting fields appends the concatenation of their texts |
| `DateText.MatchSplits` | modules/sqlite-jdbc/src/main/java/io/roastedroot/sqlite4j/date/FastDateParser.java:700-715 | the compiled expression splits the printed text exactly at the printer's seams |
| `DateText.AssignRestores` | modules/sqlite-jdbc/src/main/java/io/roastedroot/sqlite4j/date/FastDateParser.java:336-352 | the groups are assigned to the calendar's own values, in order |
| `DateText.RoundTrip` | modules/sqlite-jdbc/src/main/java/io/roastedroot/sqlite4j/date/FastDateParser.java:291-315 | for any numeric fields and literals where values fit and a field followed by a digit prints at its width, parsing the printed text (with the 19-character rule) restores every field |
| `DatePattern.ParseToken` | modules/sqlite-jdbc/src/main/java/io/roastedroot/sqlite4j/date/FastDatePrinter.java:301-350 | the two scanning loops deliver the component at a position, quotes resolved |
| `DatePattern.ParsePattern` | modules/sqlite-jdbc/src/main/java/io/roastedroot/sqlite4j/date/FastDatePrinter.java:162-292 | the component list of a whole pattern, refused exactly when some letter is unknown or more than three X stand together |
| `DatePattern.FieldsIffLegal` | modules/sqlite-jdbc/src/main/java/io/roastedroot/sqlite4j/date/FastDateParser.java:149-185 | the parser splits a pattern into strategies if and only if every unquoted letter run is allowed (at most three X) and no quote is left open |
| `DatePattern.AcceptedIff` | modules/sqlite-jdbc/src/main/java/io/roastedroot/sqlite4j/date/FastDateParser.java:149-185 | the parser takes exactly the legal patterns that are not empty |
| `DatePattern.TokenizersAgree` | modules/sqlite-jdbc/src/main/java/io/roastedroot/sqlite4j/date/FastDateParser.java:484-504 | on every pattern the parser takes, the texts of its fields with neighbouring literals joined are the printer's components |
| `RegexText.AppendEscaped` | modules/sqlite-jdbc/src/main/java/io/roastedroot/sqlite4j/date/FastDateParser.java:365-404 | the escaping loop, early return included, appends the expression of the field's raw text |
| `RegexText.LitOfPaired` | modules/sqlite-jdbc/src/main/java/io/roastedroot/sqlite4j/date/FastDateParser.java:365-404 | in raw text with paired quotes the rounds of the loop stand for exactly the unquoted text, also where a backslash takes the first quote of a pair |
| `RegexText.FieldReads` | modules/sqlite-jdbc/src/main/java/io/roastedroot/sqlite4j/date/FastDateParser.java:365-404 | safe text reads as itself whatever expression follows, and leaves the quotation open exactly when the loop returned early |
| `RegexText.EscapeDenotesIff` | modules/sqlite-jdbc/src/main/java/io/roastedroot/sqlite4j/date/FastDateParser.java:365-404 | the expression written for a field asks for exactly its text if and only if no round that begins with E follows one that ends in a backslash |
| `DateExpression.CompiledReads` | modules/sqlite-jdbc/src/main/java/io/roastedroot/sqlite4j/date/FastDateParser.java:149-191 | the expression compiled from escapable fields reads back as exactly those literals and number groups |
| `DateExpression.ItemsMatch` | modules/sqlite-jdbc/src/main/java/io/roastedroot/sqlite4j/date/FastDateParser.java:700-715 | matching what the expression asks for is matching the components |
| `DateExpression.JoinedMatch` | modules/sqlite-jdbc/src/main/java/io/roastedroot/sqlite4j/date/FastDateParser.java:609-623 | where literal text was split makes no difference to what the expression matches |
| `DateExpression.ParsersAgree` | modules/sqlite-jdbc/src/main/java/io/roastedroot/sqlite4j/date/FastDateParser.java:336-352 | on escapable patterns of numeric fields and literals, the parser compiled from the pattern reads any text as the printer's components do |
| `DateExpression.PatternRoundTrip` | modules/sqlite-jdbc/src/main/java/io/roastedroot/sqlite4j/date/FastDateParser.java:149-191 | the round trip stated on pattern strings, quoted text and escaping included |
| `DateExpression.DanglingNeverMatches` | modules/sqlite-jdbc/src/main/java/io/roastedroot/sqlite4j/date/FastDateParser.java:373-375 | a literal whose escaping returned early swallows the number group behind it: no text with a digit there is matched |
| `DateExpression.DanglingPattern` | modules/sqlite-jdbc/src/main/java/io/roastedroot/sqlite4j/date/FastDateParser.java:373-375 | no pattern that begins with such a literal and a number field reads back what it prints, for any calendar |
| `DateExpression.BrokenPattern` | modules/sqlite-jdbc/src/main/java/io/roastedroot/sqlite4j/date/FastDateParser.java:373-375 | the legal pattern 'a\'''yyyy is one of them |
| `StatementCache.CacheIsMostRecent` | modules/sqlite/src/main/kotlin/org/example/sqlite/SqliteWorker.kt:148-153 | after any history of uses the cache holds exactly the last 64 distinct statements, in order of last use |
| `StatementCache.InsertKeys` | modules/sqlite/src/main/kotlin/org/example/sqlite/SqliteWorker.kt:148-153 | a miss keeps at most 64 keys, evicts at most the eldest and never the one just inserted |
| `StatementCache.TouchKeys` | modules/sqlite/src/main/kotlin/org/example/sqlite/SqliteWorker.kt:148-153 | a hit reorders and keeps the same keys |
| `StatementCache.UseIdempotent` | modules/sqlite/src/main/kotlin/org/example/sqlite/SqliteWorker.kt:297-306 | a retried lookup of the same statement leaves the order as one use does |
| `Session.LiveIsDisjointUnion` | modules/sqlite/src/main/kotlin/org/example/sqlite/SqliteWorker.kt:148-160 | live engine statements are the disjoint union of cached and user statements, one handle per key |
| `Session.RebindIsFreshIff` | modules/sqlite/src/main/kotlin/org/example/sqlite/SqliteWorker.kt:354-375 | rebinding a user statement reaches a fresh statement's bindings if and only if nothing beyond the given parameters is still bound |
| `Session.StaleValueSurvives` | modules/sqlite/src/main/kotlin/org/example/sqlite/SqliteWorker.kt:354-375 | one value given to a statement that had two leaves the second bound |
| `Session.UserRunIsFresh` | modules/sqlite/src/main/kotlin/org/example/sqlite/SqliteWorker.kt:354-375 | with nothing bound beyond the parameters, a user statement answers like any other such statement, retries included |
| `Session.Session.Lookup` | modules/sqlite/src/main/kotlin/org/example/sqlite/SqliteWorker.kt:224-231 | hit, or prepare and insert with eviction: the invariant holds, user statements are untouched, the handle is live and pristine |
| `Session.Session.BindAll` | modules/sqlite/src/main/kotlin/org/example/sqlite/SqliteWorker.kt:211-216 | binds in order and stops at the first failure, with exactly the bindings reached |
| `Session.BindOkIff` | modules/sqlite/src/main/kotlin/org/example/sqlite/SqliteWorker.kt:211-216 | binding succeeds if and only if every value has a bindable type and the engine answers 0 for its position |
| `Session.BoundIs` | modules/sqlite/src/main/kotlin/org/example/sqlite/SqliteWorker.kt:211-216 | afterwards every position given a value holds it, every position given NULL holds none, and positions beyond the parameters keep what they had |
| `Session.ScalarThrowsIff` | modules/sqlite/src/main/kotlin/org/example/sqlite/SqliteWorker.kt:211-216 | the call throws if and only if some parameter does not bind |
| `Session.ScalarMeans` | modules/sqlite/src/main/kotlin/org/example/sqlite/SqliteWorker.kt:232-242 | with b the bindings that hold exactly the non-null parameters, the answer is (0, columns) for a row, (0, nothing) at the end and the failing code otherwise |
| `Session.Session.Query` | modules/sqlite/src/main/kotlin/org/example/sqlite/SqliteWorker.kt:224-243 | for every history the answer is, by the engine's own step with exactly the non-null parameters bound at that moment, (0, columns) for a row, (0, nothing) at the end and the code of a failure; a bind failure throws; the cache has seen one use |
| `Session.Session.DecodeRows` | modules/sqlite/src/main/kotlin/org/example/sqlite/SqliteWorker.kt:273-294 | steps to the end and collects every row in order |
| `Session.CollectMeans` | modules/sqlite/src/main/kotlin/org/example/sqlite/SqliteWorker.kt:273-294 | the rows are those of the engine's consecutive steps up to the first that is not a row, whose code decides |
| `Session.FreshRowsMeans` | modules/sqlite/src/main/kotlin/org/example/sqlite/SqliteWorker.kt:297-318 | the answer is that of the last attempt; every earlier one ended in 5 or 15 |
| `Session.ExpectedRowsMeans` | modules/sqlite/src/main/kotlin/org/example/sqlite/SqliteWorker.kt:299-306 | the same with attempts lost to a prepare that failed with 5 or 15 |
| `Session.Session.QueryRows` | modules/sqlite/src/main/kotlin/org/example/sqlite/SqliteWorker.kt:297-318 | for every history the outcome is that of fresh statements, through up to 200 attempts, prepare losses and bind failures included; the cache order changes by at most one use |
| `Session.Session.PrepareUser` | modules/sqlite/src/main/kotlin/org/example/sqlite/SqliteWorker.kt:337-347 | a new handle with its parameter count is registered exactly when the engine compiled a statement; failures keep the extended code and change nothing |
| `Session.Session.FinalizeUser` | modules/sqlite/src/main/kotlin/org/example/sqlite/SqliteWorker.kt:350-352 | finalizes a registered handle once; anything else is a no-op |
| `Session.Session.RunUser` | modules/sqlite/src/main/kotlin/org/example/sqlite/SqliteWorker.kt:358-375 | unregistered handles are refused; otherwise the answer is what the engine's step gives at the last of at most 200 attempts, each earlier one having ended in 5 or 15; every other statement untouched |
| `Session.UserRunMeans` | modules/sqlite/src/main/kotlin/org/example/sqlite/SqliteWorker.kt:358-375 | the answer is the reply of one attempt, at most the 200th, and every attempt before it ended in 5 or 15 |
| `Session.Session.Close` | modules/sqlite/src/main/kotlin/org/example/sqlite/SqliteWorker.kt:175-184 | every statement is finalized once and none stays live |
| `ShmArena.KeyInjective` | modules/sqlite/src/main/kotlin/org/example/sqlite/ShmArena.kt:21 | different (file, region) pairs never share a key |
| `ShmArena.CoversIff` | modules/sqlite/src/main/kotlin/org/example/sqlite/ShmArena.kt:33-37 | a drop reaches the regions of that name and of the names that extend "name#" |
| `ShmArena.StepInv` | modules/sqlite/src/main/kotlin/org/example/sqlite/ShmArena.kt:19-37 | every map and drop keeps the allocator invariant |
| `ShmArena.ArenaSafety` | modules/sqlite/src/main/kotlin/org/example/sqlite/ShmArena.kt:19-37 | over every fitting run all regions ever handed out are pairwise disjoint, 16-aligned and inside the arena |
| `ShmArena.InsideIffFits` | modules/sqlite/src/main/kotlin/org/example/sqlite/ShmArena.kt:24-26 | nothing checks the end: a new region stays inside the arena if and only if its rounded size still fits |
| `ShmArena.SharedIffSame` | modules/sqlite/src/main/kotlin/org/example/sqlite/ShmArena.kt:22 | two live regions have one pointer if and only if they are the same region of the same file |
| `ShmArena.SamePointerWhileLive` | modules/sqlite/src/main/kotlin/org/example/sqlite/ShmArena.kt:19-30 | until a drop reaches the file, every later request for a region returns the first pointer |
| `ShmArena.RemapNeverAliases` | modules/sqlite/src/main/kotlin/org/example/sqlite/ShmArena.kt:32-37 | after a drop the file's regions never overlap anything handed out before it |
| `ShmArena.DropIsExactIff` | modules/sqlite/src/main/kotlin/org/example/sqlite/ShmArena.kt:33-37 | dropFile forgets exactly the named file if and only if no live name extends "name#" |
| `ShmArena.DropTakesExtendedName` | modules/sqlite/src/main/kotlin/org/example/sqlite/ShmArena.kt:33-37 | a concrete file that loses its regions to another file's drop |
| `ShmArena.Arena.MapRegion` | modules/sqlite/src/main/kotlin/org/example/sqlite/ShmArena.kt:19-30 | a fitting new region keeps the arena valid, reads zero and changes no byte of an earlier region; one that does not fit is taken all the same, or the fill throws with the cursor already moved; anything else touches nothing |
| `ShmArena.Arena.DropFile` | modules/sqlite/src/main/kotlin/org/example/sqlite/ShmArena.kt:33-37 | the specification's drop, invariant kept |
| `FileLocks.RunHierarchy` | modules/sqlite/src/main/kotlin/org/example/sqlite/JvmVfsLocks.kt:52-80 | over every run with levels 0..4 and lowering unlocks, EXCLUSIVE excludes every other holder and at most one connection is at PENDING or above |
| `FileLocks.RunOneWriter` | modules/sqlite/src/main/kotlin/org/example/sqlite/JvmVfsLocks.kt:52-80 | when PENDING is never asked for directly, at most one connection is at RESERVED or above |
| `FileLocks.PendingKeepsOneWriterIff` | modules/sqlite/src/main/kotlin/org/example/sqlite/JvmVfsLocks.kt:63 | a direct PENDING request keeps that if and only if it is moot, refused, or nobody else is at RESERVED |
| `FileLocks.UnlockKeepsIff` | modules/sqlite/src/main/kotlin/org/example/sqlite/JvmVfsLocks.kt:74-80 | unlock keeps the hierarchy if and only if it lowers or nothing conflicts |
| `FileLocks.RaisingUnlockBreaks` | modules/sqlite/src/main/kotlin/org/example/sqlite/JvmVfsLocks.kt:74-80 | a raising unlock makes two EXCLUSIVE holders |
| `FileLocks.PendingDrains` | modules/sqlite/src/main/kotlin/org/example/sqlite/JvmVfsLocks.kt:60-66 | while a connection stays at PENDING the set of other holders only shrinks |
| `FileLocks.ExclusiveIff` | modules/sqlite/src/main/kotlin/org/example/sqlite/JvmVfsLocks.kt:64 | EXCLUSIVE is granted if and only if nobody else holds anything |
| `FileLocks.GrantedIff` | modules/sqlite/src/main/kotlin/org/example/sqlite/JvmVfsLocks.kt:52-70 | when each level is granted, in numbers: unless the caller is there already, 1 and 3 are refused while another is at 3 or above, 2 while another is at 2 or above, 4 while another holds anything; other targets never |
| `FileLocks.FileLockTable.LockLevel` | modules/sqlite/src/main/kotlin/org/example/sqlite/JvmVfsLocks.kt:52-72 | BUSY changes nothing, OK raises the caller to the target and nobody else, the hierarchy is kept |
| `FileLocks.FileLockTable.UnlockLevel` | modules/sqlite/src/main/kotlin/org/example/sqlite/JvmVfsLocks.kt:74-80 | the caller ends at the target, nobody else changes, and the hierarchy is kept when it lowers |
| `FileLocks.FileLockTable.CheckReserved` | modules/sqlite/src/main/kotlin/org/example/sqlite/JvmVfsLocks.kt:83-90 | 1 if and only if another connection is at RESERVED or above |
| `ShmLocks.RunCompatible` | modules/sqlite/src/main/kotlin/org/example/sqlite/JvmVfsLocks.kt:93-128 | over every run of the reader-writer locks the table refines, an exclusive holder of a slot is its only holder |
| `ShmLocks.KindsOfFlags` | modules/sqlite/src/main/kotlin/org/example/sqlite/JvmVfsLocks.kt:97-115 | flag 1 with anything releases, without it flag 8 asks for exclusive, and without both for shared |
| `ShmLocks.SlotsIndependent` | modules/sqlite/src/main/kotlin/org/example/sqlite/JvmVfsLocks.kt:93-128 | each slot ends as if it had run alone through the granted requests; refused ones left no trace |
| `ShmLocks.UnmapErases` | modules/sqlite/src/main/kotlin/org/example/sqlite/JvmVfsLocks.kt:120-128 | unmap removes exactly that connection's holdings |
| `ShmLocks.FreeIff` | modules/sqlite/src/main/kotlin/org/example/sqlite/JvmVfsLocks.kt:102-111 | the code's test on sharer set and exclusive holder is the reader-writer rule |
| `ShmLocks.AfterIs` | modules/sqlite/src/main/kotlin/org/example/sqlite/JvmVfsLocks.kt:98-113 | the code's update is the reader-writer update |
| `ShmLocks.ShmLockTable.ShmLock` | modules/sqlite/src/main/kotlin/org/example/sqlite/JvmVfsLocks.kt:93-117 | a multi-slot request is one step of the eight locks: all slots or none, BUSY if and only if some slot refuses |
| `ShmLocks.ShmLockTable.ShmUnmap` | modules/sqlite/src/main/kotlin/org/example/sqlite/JvmVfsLocks.kt:120-128 | the table afterwards is the specification's unmap |
| `BatchBuffer.RowsAreSnapshots` | modules/sqlite-jdbc/src/main/java/io/roastedroot/sqlite4j/jdbc3/JDBC3PreparedStatement.java:150-163 | over every run row k is the parameters as they stood at the k-th addBatch since the last clear |
| `Layout.FlatAt` | modules/sqlite-jdbc/src/main/java/io/roastedroot/sqlite4j/core/DB.java:936-939 | cell j of row i lies at i * params + j of the array |
| `BatchBuffer.PendingRowIsExecuted` | modules/sqlite-jdbc/src/main/java/io/roastedroot/sqlite4j/core/DB.java:997-1020 | after set, addBatch, set the row execute() binds is the pending one, not the parameters just set |
| `BatchBuffer.OverwriteFlat` | modules/sqlite-jdbc/src/main/java/io/roastedroot/sqlite4j/core/CorePreparedStatement.java:107-113 | overwriting one array cell rewrites exactly one cell of one row, and is invisible only when the value was there |
| `BatchBuffer.PreparedBatch.SetParam` | modules/sqlite-jdbc/src/main/java/io/roastedroot/sqlite4j/core/CorePreparedStatement.java:107-113 | parameter p of the statement becomes the value and every other cell stays; beyond it the value is lost, below 1 an earlier row is rewritten, outside the array it throws |
| `BatchBuffer.PreparedBatch.ClearParams` | modules/sqlite-jdbc/src/main/java/io/roastedroot/sqlite4j/jdbc3/JDBC3PreparedStatement.java:39-43 | nulls the current row and no earlier one |
| `BatchBuffer.PreparedBatch.AddRow` | modules/sqlite-jdbc/src/main/java/io/roastedroot/sqlite4j/jdbc3/JDBC3PreparedStatement.java:150-163 | logs the current parameters, carries them over, and the doubling always leaves room |
| `BatchBuffer.PreparedBatch.ClearAll` | modules/sqlite-jdbc/src/main/java/io/roastedroot/sqlite4j/jdbc3/JDBC3Statement.java:244-247 | empties the log and the parameters |
| `BatchBuffer.PreparedBatch.ExecuteBatch` | modules/sqlite-jdbc/src/main/java/io/roastedroot/sqlite4j/core/CorePreparedStatement.java:68-96 | an empty batch and a throwing transaction mode change nothing; otherwise every row before the first bad one was stepped with exactly its logged values, the bad one too if its binding succeeded, and the batch is cleared |
| `BatchBuffer.PreparedBatch.RunRows` | modules/sqlite-jdbc/src/main/java/io/roastedroot/sqlite4j/core/DB.java:924-967 | the nested bind and step loops step exactly the logged rows up to the first bad one |
| `BatchBuffer.FirstBadIff` | modules/sqlite-jdbc/src/main/java/io/roastedroot/sqlite4j/core/DB.java:936-960 | a row is the first bad one if and only if every bind before it answered 0 and every step 101, and one of its own did not |
| `BatchBuffer.SteppedIs` | modules/sqlite-jdbc/src/main/java/io/roastedroot/sqlite4j/core/DB.java:936-957 | a bad row is itself stepped exactly when all its binds succeeded; without a bad row all are stepped |
| `BatchBuffer.PreparedBatch.BoundByExecute` | modules/sqlite-jdbc/src/main/java/io/roastedroot/sqlite4j/core/DB.java:997-1020 | execute() binds the first pending row when there is one, and so the current parameters if and only if none is pending or it equals them |
| `Runtimes.StepKeepsIff` | modules/sqlite/src/main/kotlin/org/example/sqlite/WorkerDbPort.kt:421-495 | one open, begin-close or release keeps the books if and only if the in-memory runtime's last close does not throw |
| `Runtimes.Conservation` | modules/sqlite/src/main/kotlin/org/example/sqlite/WorkerDbPort.kt:404-495 | over every run refs is the number of open ports, runtime and owner lock exist exactly while one is open, and a runtime out of use was closed exactly once unless its boot failed half-way |
| `Runtimes.StuckBreaks` | modules/sqlite/src/main/kotlin/org/example/sqlite/WorkerDbPort.kt:482-494 | a throwing close leaves the in-memory runtime registered with no reference |
| `Runtimes.FailedSpawn` | modules/sqlite/src/main/kotlin/org/example/sqlite/WorkerDbPort.kt:440-448 | a failed spawn gives back the reference it took |
| `Runtimes.Registry.OpenFile` | modules/sqlite/src/main/kotlin/org/example/sqlite/WorkerDbPort.kt:434-449 | is the specification's open for a path, boot and spawn failures included |
| `Runtimes.Registry.ReleaseFile` | modules/sqlite/src/main/kotlin/org/example/sqlite/WorkerDbPort.kt:452-462 | the last reference removes the entry, closes the runtime and frees the owner lock |
| `Runtimes.Registry.OpenMemory` | modules/sqlite/src/main/kotlin/org/example/sqlite/WorkerDbPort.kt:465-479 | is the specification's open for the in-memory runtime |
| `Runtimes.Registry.ReleaseMemory` | modules/sqlite/src/main/kotlin/org/example/sqlite/WorkerDbPort.kt:482-494 | is the specification's release, with the reference kept when close throws |
| `Runtimes.Registry.BeginPortClose` | modules/sqlite/src/main/kotlin/org/example/sqlite/WorkerDbPort.kt:404-412 | only the first close of a port goes on |
| `IoQueue.StepInv` | src/main/kotlin/org/example/sqlol/LoomIoHandler.kt:31-57 | every step of submitters, cancellers and the event loop keeps coverage, order and sleep invariants |
| `IoQueue.NeverStranded` | src/main/kotlin/org/example/sqlol/LoomIoHandler.kt:101-109 | in every run, also after throwing handlers and deadlines, a valid registration's runnable entries, submitters between offers and the handler's unspent entry are at least as many as its queued operations |
| `IoQueue.DeliveredInOrder` | src/main/kotlin/org/example/sqlol/LoomIoHandler.kt:143-154 | deliveries are a prefix of the offers (at most once, first in first out), and at most one operation is ever discarded |
| `IoQueue.AsleepMeansDrained` | src/main/kotlin/org/example/sqlol/LoomIoHandler.kt:31-52 | a handler that parks because its queue was empty, without a permit and with no submitter on its way, has delivered everything of every valid registration |
| `IoQueue.ParkedMeansDrained` | src/main/kotlin/org/example/sqlol/LoomIoHandler.kt:44-52 | the same for every park, when delayNanos is not positive once the deadline has passed |
| `IoQueue.LateParkIff` | src/main/kotlin/org/example/sqlol/LoomIoHandler.kt:44-52 | a park after a deadline leaves nothing behind if and only if it does not sleep or every runnable entry has its wakeup still to come |
| `IoQueue.LateParkStrands` | src/main/kotlin/org/example/sqlol/LoomIoHandler.kt:44-52 | with a positive delay after the deadline a run ends asleep on a queued operation that nobody will announce |
| `IoQueue.RunServesAll` | src/main/kotlin/org/example/sqlol/LoomIoHandler.kt:37-47 | from every reachable state inside a run, also one left by throwing handlers and deadlines, the loop alone empties the runnable queue within a stated number of steps, and then every valid registration has had all its offers delivered |
| `IoQueue.AfterThrow` | src/main/kotlin/org/example/sqlol/LoomIoHandler.kt:143-154 | after a handler throws, the next run delivers exactly what was left, in order |
| `IoQueue.ParksIffNothingHandled` | src/main/kotlin/org/example/sqlol/LoomIoHandler.kt:49-51 | whatever clients do meanwhile, an empty runnable queue sends the loop to sleep if and only if it may block and nothing was delivered since this run began |
| `IoQueue.CanceledStaysSilent` | src/main/kotlin/org/example/sqlol/LoomIoHandler.kt:101-118 | over every run after a cancel nothing more reaches the handler, and unless a submitter was past the validity test nothing more is queued |
| `IoQueue.CancelSilences` | src/main/kotlin/org/example/sqlol/LoomIoHandler.kt:115-118 | cancel itself marks the registration, and whatever runs afterwards its handler is given nothing more |
| `IoQueue.EntriesArePaid` | src/main/kotlin/org/example/sqlol/LoomIoHandler.kt:105-106 | over every run a registration has at most as many runnable entries and submitters on their way as operations were ever offered to it |
| `IoQueue.PermitServesOnePark` | src/main/kotlin/org/example/sqlol/LoomIoHandler.kt:49-51 | a permit makes one park return and no second one |
| `SpawnHandshake.StepInv` | modules/sqlite/src/main/kotlin/org/example/sqlite/JvmVfsRuntime.kt:475-539 | every step of caller and worker through the three futures keeps the invariant |
| `SpawnHandshake.RunInv` | modules/sqlite/src/main/kotlin/org/example/sqlite/JvmVfsRuntime.kt:289-317 | the invariant in every interleaving, none of which is longer than its rank |
| `SpawnHandshake.ExportsOnlyWhenParked` | modules/sqlite/src/main/kotlin/org/example/sqlite/JvmVfsRuntime.kt:289-306 | spawnPthread returns only after the worker detached; until close it is parked, and it leaves the park only after shutdown |
| `SpawnHandshake.DeadWorkerFailsSpawn` | modules/sqlite/src/main/kotlin/org/example/sqlite/JvmVfsRuntime.kt:515-518 | a worker gone before completing started never lets spawnPthread return |
| `SpawnHandshake.FailsOnlyWhen` | modules/sqlite/src/main/kotlin/org/example/sqlite/JvmVfsRuntime.kt:289-317 | over every interleaving spawnPthread throws only if the thread was never created or the worker died before completing started |
| `SpawnHandshake.WaitsReturn` | modules/sqlite/src/main/kotlin/org/example/sqlite/JvmVfsRuntime.kt:289-317 | from every state of the invariant each wait returns with its future's outcome, and slot 0 and a normal exit complete their futures |
| `SpawnHandshake.HealthyMeansClosed` | modules/sqlite/src/main/kotlin/org/example/sqlite/JvmVfsRuntime.kt:289-317 | when the thread is created and the worker neither dies nor returns early, no interleaving throws, and one that can go no further has closed the child |
| `SpawnHandshake.WhatCanFail` | modules/sqlite/src/main/kotlin/org/example/sqlite/JvmVfsRuntime.kt:475-539 | creating the thread can fail, and then nothing follows; the worker can die until it detaches and while it exits, and its lifetime then ends in failure |
| `SpawnHandshake.CloseMeansGone` | modules/sqlite/src/main/kotlin/org/example/sqlite/JvmVfsRuntime.kt:308-317 | closeChild returns normally only after the worker has left completely and normally |
| `SpawnHandshake.StuckIffHung` | modules/sqlite/src/main/kotlin/org/example/sqlite/JvmVfsRuntime.kt:515-518 | a busy caller is stuck if and only if the worker returned normally without reaching slot 0 |
| `SpawnHandshake.EveryRunAnswers` | modules/sqlite/src/main/kotlin/org/example/sqlite/JvmVfsRuntime.kt:289-317 | every interleaving ends within 17 steps, and a finished one has answered its caller unless the worker returned early |
| `SpawnHandshake.EarlyReturnHangs` | modules/sqlite/src/main/kotlin/org/example/sqlite/JvmVfsRuntime.kt:515-518 | a concrete interleaving in which the early return leaves spawnPthread waiting |

## Left out

- The 30 s, 10 s and 60 s watchdogs, and closing the pool while requests are in flight: they abandon the protocol by design.
- The text result of a channel (`restext`, queryText) and text columns of scalar query results: the same path as the number.
- Sub-day fields and the BC era of julianDateToCalendar, and REAL values before day 0: calendar settings and further truncations.
- Text, era and time-zone letters of date patterns, and digits outside ASCII: they depend on JDK tables.
- DateExpression.PatternRoundTrip: says nothing about patterns whose literals are not escapable, except those of DanglingPattern; at the level of one field EscapeDenotesIff is exact.
- Session.exec, Session.run and runUserRows: sqlite3_exec is one opaque call, run is Query in a loop and runUserRows is RunUser with DecodeRows. The SQL and bind scratch buffers are left out as memory management; so are user functions that re-enter the session.
- fill, copy, readCString and the atomics of StatelessBulkMemory: delegated to code outside the repository.
- The map from file name to lock table in JvmVfsLocks: one table per name, with no interaction between names. Connection -1 and slots outside 0..7 are excluded, as the source's own encoding and arrays demand.
- Array sizes beyond 2^31 in the batch buffer: the doubling runs out of memory first. changes() values and auto-commit handling after a batch: bookkeeping of the engine.
- Temporary directories of the in-memory runtime, and the connection-level operations of WorkerDbPort: delegation.
- prepareToDestroy of the I/O handler and the unregister callback of cancel: teardown after the last run.
- Real pthread_create calls from the guest (lazy spawns) and the main-instance lock: one-way launches with no handshake.
- SQLite, the WebAssembly runtime, WASI, savepoint and auto-commit flags, configuration classes, schedulers and framework glue.
