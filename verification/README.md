# Verified models of six SQLite cores

The Dafny project in this directory models six parts of the SQLite/SQLCipher sources under
`MySpotify/Pods/WCDBOptimizedSQLCipher` and proves what they are for:

* **STAT4 sampling** (`Stat4*.dfy`, `Stat1.dfy`, `IntList.dfy`, `ChangeDetect.dfy`, `ChangeEmit.dfy`): the one-pass
  sampler of ANALYZE ends with exact counts for a bounded set of samples and leaves no prefix out for a rarer one; the
  byte code that feeds it finds the first changed column of every row; together they leave exact samples; the printed
  lists read back.
* **Online backup** (`Backup*.dfy`): what a run of steps, source writes and restarts keeps, the destination file at
  SQLITE_DONE, and what a rollback gives back before it, for any two page sizes.
* **Bitvec** (`Bitvec*.dfy`): a set of page numbers as bitmap, hash table or tree, changed in place, and its self-test.
* **Btree mutexes** (`MutexProtocol.dfy`, `BtreeLocks.dfy`): try-lock, back off and relock in order, without deadlock.
* **Rename editor** (`Rename*.dfy`): token by token editing in place equals simultaneous substitution.
* **Parser engine** (`Lr*.dfy`, `ExprRewrite.dfy`): the table-driven LR driver ends with every token and accepts exactly
  the inputs with a tree that its tables follow, which derive from the grammar, and the expression rewriting of the
  grammar actions keeps three-valued meaning.

`Arithmetic.dfy` and `Sequences.dfy` have the helpers shared by several of them. Each part has a specification in
functions and lemmas, and objects with the fields, arrays and loops of the original whose methods refine it. `dafny
verify dfyconfig.toml` checks everything.

## How the parts are modelled

**Sampler.** `Stat4.dfy` gives every function of the sampler as a function on a value `Accum`;
`Stat4Object.Stat4Accum` is the object with its arrays. An `Index` is what a scan pushes: for each row the first
changed column. `Describes` ties it to rows with sorted, distinct keys. The hash of a row is an arbitrary function of
the seed. `Stat4Chosen` says of the list alone what each step does to it, and `Stat4Kept` follows a standard (`Bar`)
through a run: rows that had a sample keep one, or everything in the list meets the standard.

**Byte code.** `ChangeEmit.Vdbe` is the instruction list under construction; `ChangeDetect.Exec` executes the nine
opcodes the program uses. Columns are compared by a collation key, so that values may differ and still be equal. Lines
1177 to 1179 of `src/analyze.c` say that behind a non-NULL row of a unique index all rows are distinct. In a
descending index NULLs come last, and two of them are equal: `ShortcutIsRight` has the exact condition,
`DescendingUnique` the rows.

**Backup.** A database is a sequence of pages; offsets are related to pages by division only in `BackupPages.dfy`.
`Env` holds the replies of the pager, the B-tree layer and the file system during one step. The premises are those the
code states: the pager reports every write of a used page to attached handles, and getting, writing and committing
pages fails only with fatal codes (`HardEnv`). `Dest` has the pages as the pager returns them, the file, and the
transaction: the size the database had, the rollback journal page by page, and the pages the file is known to have. A
page goes into the journal before it is first changed (`PagerWrite`, lines 6015 to 6200 of `src/pager.c`); phase one
puts pages into the file and may stop after any number of them; phase two ends the transaction; `Rollback` has the
journal, the file and the old size to work with, nothing else. The unused page is not restored: the direct writes go
there. Of page 1 a snapshot leaves open bytes 28 to 31, the page count that the copying loop puts there itself, and
bytes 24 to 27 and 92 to 99, the change counter and version mark that the commit of the pager writes (`src/pager.c`
lines 3129 to 3141). A snapshot is of a source that is not empty (`BackupAnswers.EmptySource` has the empty one) and
does not end on its unused page, which the B-tree layer sees to (`WellSized`); the snapshot needs that only for
destination pages that are not smaller (`FitsInto`, `UnusedPageMissing`).

**Bitvec.** Memory is a function `fails` of the number of the request, so that a result can say which requests it
made: `Granted(fails, n, n')` says that none of those from n to n' was refused.

**Mutexes.** The protocol is a transition system in which a try-lock may fail at any time; each connection walks its
list of handles sorted by BtShared address. `BtreeLocks` is the code of one connection between the others' steps. A
`Thread` records the mutex calls the code makes and the steps of the protocol that make the same calls (`Walk`), and
`Shown` says that the handles are as the protocol has them: so the results about the protocol are about this code.

**Parser.** The tables are parameters. `Consistent` lists finitely many checks of the tables against a grammar, with a
note for every state of the symbols on top of the stack and the states under them, and with the gotos the automaton
has. A grammar place accepts a token by fallback or wildcard as the engine does. `Followed` follows a tree through the
tables: the shift of each token, and behind the children of each node the reduction by its rule and the goto, under
the token that comes next. `Ranked` lists the checks for termination: a number for every state and token such that no
reduction gains more than it takes off the stack.

**Expressions.** `Meaning` evaluates what is written, with IN as a disjunction and BETWEEN as a conjunction; `Eval`
evaluates the trees. Values are integers and NULL.

## Model

| member | source | states |
|---|---|---|
| `Stat4Exact.SamplesAreExact` | MySpotify/Pods/WCDBOptimizedSQLCipher/src/analyze.c:556-683 | Main result. Whatever the sorted rows, the sample limit and the tie-breaker: after the first stat_get of a complete scan there are at most mxSample samples, strictly in row order, each with the exact nEq, nLt and nDLt of the row it names for every column, and every periodic row is among them |
| `Stat4Frequent.FrequentPrefixesAreSampled` | MySpotify/Pods/WCDBOptimizedSQLCipher/src/analyze.c:556-683 | Main result. After a complete scan every prefix of every row, the full key aside, has a sample; or all mxSample places are taken, the non-periodic ones by prefixes that occur in more rows, or in as many and are no longer |
| `Stat4Kept.GoneIsLeast` | MySpotify/Pods/WCDBOptimizedSQLCipher/src/analyze.c:594-663 | Over whole runs: a non-periodic sample of the list after m rows is still there after any number of further rows, or the list is full and the sample, as it was, is preferred to none of the non-periodic samples there |
| `Stat4Kept.EveryRunKept` | MySpotify/Pods/WCDBOptimizedSQLCipher/src/analyze.c:653-683 | When the scan is over every run of equal prefixes is represented, by a periodic sample or one taken for at least as much, or the list is full of samples taken for at least as much |
| `Stat4Chosen.PushOneOffers` | MySpotify/Pods/WCDBOptimizedSQLCipher/src/analyze.c:657-665 | What an offered candidate does to the list: nothing if the list is full and it is preferred to no non-periodic sample, or if a periodic sample of the open run is there; else the best sample of the run is raised to its column; else it comes in, in a full list for exactly one least-preferred non-periodic sample, to which it is preferred |
| `Stat4Chosen.PeriodicOffers` | MySpotify/Pods/WCDBOptimizedSQLCipher/src/analyze.c:778-786 | A row comes in as a periodic sample if and only if it is periodic, in a full list for exactly one least-preferred non-periodic sample |
| `Stat4Chosen.KeptAfter` | MySpotify/Pods/WCDBOptimizedSQLCipher/src/analyze.c:556-683 | None of the ways in which the list changes takes the last sample of some rows away, unless everything non-periodic that stays or comes is worth at least as much |
| `Stat4Frequent.ThirdIsPeriodic` | MySpotify/Pods/WCDBOptimizedSQLCipher/src/analyze.c:454 | There are at most mxSample/3 periodic rows, and exactly so many when there are at least (mxSample/3+1)*(mxSample/3) rows |
| `Stat4Exact.RunLengthsAreTrue` | MySpotify/Pods/WCDBOptimizedSQLCipher/src/analyze.c:745-765 | The start, length and number of the runs of equal prefixes are the counts of rows with an equal prefix, rows with a smaller prefix and distinct smaller prefixes |
| `Stat4Run.RunKeeps` | MySpotify/Pods/WCDBOptimizedSQLCipher/src/analyze.c:729-795 | Every state of every run of stat_push calls meets the sampler invariant: samples located and in order, a zero count exactly where the run is open, aBest the last row of its run, iMin the least-preferred non-periodic sample, no more than mxSample samples |
| `Stat4Run.PushKeeps` | MySpotify/Pods/WCDBOptimizedSQLCipher/src/analyze.c:729-795 | One stat_push keeps that invariant |
| `Stat4Run.RunExists` | MySpotify/Pods/WCDBOptimizedSQLCipher/src/analyze.c:399-493 | Every index has a run of every length up to its row count, so the results about runs are about every scan |
| `Stat4Run.FewPeriodicRows` | MySpotify/Pods/WCDBOptimizedSQLCipher/src/analyze.c:454 | There are fewer periodic rows than samples, whatever the row count and the sample limit: an eviction always finds a non-periodic sample |
| `Stat4Run.SamplePeriodicKeeps` | MySpotify/Pods/WCDBOptimizedSQLCipher/src/analyze.c:772-786 | Sampling a periodic row evicts no periodic sample and loses no count that is still unknown |
| `Stat4Run.UpdateBestKeeps` | MySpotify/Pods/WCDBOptimizedSQLCipher/src/analyze.c:788-794 | After a row every best candidate is a row of the current run, at the end of its run of one column more, with its counts up to there; and the invariant holds for one row more |
| `Stat4Best.BestIsRow` | MySpotify/Pods/WCDBOptimizedSQLCipher/src/analyze.c:788-794 | In every state of every run, the best candidate of a column is one of the rows of its current run, just as it was when it was read |
| `Stat4Best.BestIsUnbeaten` | MySpotify/Pods/WCDBOptimizedSQLCipher/src/analyze.c:788-794 | And no row of that run is preferred to it |
| `Stat4Run.PushPreviousKeeps` | MySpotify/Pods/WCDBOptimizedSQLCipher/src/analyze.c:653-683 | When runs close, their candidates are offered and the counts of samples in closed runs are filled in: nothing known is overwritten, nothing unknown is left in a closed run |
| `Stat4Steps.PushBestKeeps` | MySpotify/Pods/WCDBOptimizedSQLCipher/src/analyze.c:657-665 | Offering the candidates from the longest prefix down keeps the list invariant; in the last column visited, if samples of the closed run still lack their count, one of them is periodic or one was taken for that column |
| `Stat4Steps.PushOneKeeps` | MySpotify/Pods/WCDBOptimizedSQLCipher/src/analyze.c:657-665 | One candidate, accepted or rejected, keeps the list invariant |
| `Stat4Steps.AppendKeeps` | MySpotify/Pods/WCDBOptimizedSQLCipher/src/analyze.c:588-626 | Appending a sample, with eviction when the list is full, keeps order, counts, periodic samples and iMin |
| `Stat4Steps.UpgradeKeeps` | MySpotify/Pods/WCDBOptimizedSQLCipher/src/analyze.c:566-585 | Upgrading a sample of the same open run in place keeps the list invariant |
| `Stat4Order.IsBetterAsymmetric` | MySpotify/Pods/WCDBOptimizedSQLCipher/src/analyze.c:529-544 | No two samples are each better than the other |
| `Stat4Order.NotBetterTransitive` | MySpotify/Pods/WCDBOptimizedSQLCipher/src/analyze.c:505-544 | Not being better is transitive: the comparison is a strict weak order, tie-breaker included |
| `Stat4Order.FirstDifferenceDecides` | MySpotify/Pods/WCDBOptimizedSQLCipher/src/analyze.c:513-518 | Behind the column of two samples the first count in which they differ decides, to the larger, and without one the larger tie-breaker |
| `Stat4Order.MinScanFindsLeast` | MySpotify/Pods/WCDBOptimizedSQLCipher/src/analyze.c:629-641 | The scan for iMin finds a sample that is better than no other non-periodic one, and fails only if all samples are periodic |
| `Stat4Order.UpgradeScanFindsBest` | MySpotify/Pods/WCDBOptimizedSQLCipher/src/analyze.c:566-578 | The scan for an upgrade is blocked exactly by a periodic sample of the open run, and otherwise finds the best sample of it if there is one |
| `Stat4Object.Stat4Accum.constructor` | MySpotify/Pods/WCDBOptimizedSQLCipher/src/analyze.c:399-493 | The accumulator starts as the specification says, with the period computed from row count and sample limit |
| `Stat4Object.SampleIsBetterPost` | MySpotify/Pods/WCDBOptimizedSQLCipher/src/analyze.c:505-523 | The comparison loop over the remaining columns equals the recursive order |
| `Stat4Object.SampleIsBetter` | MySpotify/Pods/WCDBOptimizedSQLCipher/src/analyze.c:529-544 | The comparator equals the specified order |
| `Stat4Object.Stat4Accum.FindMin` | MySpotify/Pods/WCDBOptimizedSQLCipher/src/analyze.c:629-641 | The loop over the array finds what the specified scan finds |
| `Stat4Object.Stat4Accum.FindUpgrade` | MySpotify/Pods/WCDBOptimizedSQLCipher/src/analyze.c:566-578 | The loop over the array finds what the specified scan finds, and stops early only where nothing later could change the answer |
| `Stat4Object.Stat4Accum.Evict` | MySpotify/Pods/WCDBOptimizedSQLCipher/src/analyze.c:594-604 | From a full list exactly sample iMin goes, a non-periodic one that is preferred to no other, by shifting the later ones down; the others stay in order |
| `Stat4Object.Stat4Accum.SampleInsert` | MySpotify/Pods/WCDBOptimizedSQLCipher/src/analyze.c:556-644 | Inserting in the array refines the specified insertion. An accepted candidate finds a periodic sample of its prefix and changes nothing, or raises the best sample of its prefix, or comes in, in a full list for one least-preferred non-periodic sample, to which it is preferred; a periodic row always comes in |
| `Stat4Object.Stat4Accum.SamplePushPrevious` | MySpotify/Pods/WCDBOptimizedSQLCipher/src/analyze.c:653-683 | The two loops refine the specified closing of runs |
| `Stat4Object.Stat4Accum.StatPush` | MySpotify/Pods/WCDBOptimizedSQLCipher/src/analyze.c:729-795 | A call on the object refines the specified push and keeps the invariant |
| `Stat4Object.Stat4Accum.StatGetRowid` | MySpotify/Pods/WCDBOptimizedSQLCipher/src/analyze.c:899-912 | The first call closes all runs and the answer is the rowid of the sample asked for |
| `Stat1.StreamingCounts` | MySpotify/Pods/WCDBOptimizedSQLCipher/src/analyze.c:745-765 | After n rows of a sorted scan the counters of the current row are: rows equal in the prefix, rows before them, distinct prefixes before; nLt plus nEq is n |
| `Stat1.EstimateRoundsUp` | MySpotify/Pods/WCDBOptimizedSQLCipher/src/analyze.c:884-892 | An entry of the stat1 list is the least number that times the distinct prefixes reaches the row count |
| `Stat1.Stat1NonIncreasing` | MySpotify/Pods/WCDBOptimizedSQLCipher/src/analyze.c:884-892 | Along the columns the stat1 list never grows, for every scan |
| `Stat1.StatGetStat1` | MySpotify/Pods/WCDBOptimizedSQLCipher/src/analyze.c:872-897 | The printed text is the text of that list |
| `IntList.RoundTrip` | MySpotify/Pods/WCDBOptimizedSQLCipher/src/analyze.c:1472-1488 | Decoding the printed list gives the list back if and only if every count fits the counter type |
| `IntList.Decimal` | MySpotify/Pods/WCDBOptimizedSQLCipher/src/analyze.c:929-941 | A count is printed with digits only, and without a zero in front of a longer number |
| `IntList.DecodedText` | MySpotify/Pods/WCDBOptimizedSQLCipher/src/analyze.c:1472-1488 | What is decoded in general: every count modulo the range of the counter type |
| `IntList.DecodeIntArray` | MySpotify/Pods/WCDBOptimizedSQLCipher/src/analyze.c:1455-1488 | The reading loop ends on every text, stores what the specification decodes, and leaves the other slots alone |
| `IntList.PrintCounts` | MySpotify/Pods/WCDBOptimizedSQLCipher/src/analyze.c:929-941 | The printing loop with its trailing blank cut off builds the text of the list |
| `ChangeDetect.ScanPushes` | MySpotify/Pods/WCDBOptimizedSQLCipher/src/analyze.c:1153-1244 | Main result. For every number of tested columns and every non-empty scan, from any register contents, the emitted program ends after calling stat_push once per row, in order, with the rowid and the first tested column where the row differs from the row before; a program with the shortcut for unique indexes passes 0 for every row behind a value |
| `ChangeDetect.ShortcutIsRight` | MySpotify/Pods/WCDBOptimizedSQLCipher/src/analyze.c:1176-1182 | The shortcut passes what the tests would have found if and only if no row behind a non-NULL one equals the row before it |
| `ChangeDetect.AscendingUnique` | MySpotify/Pods/WCDBOptimizedSQLCipher/src/analyze.c:1177-1179 | That holds where the reason given for it does: NULLs first and all values distinct |
| `ChangeDetect.DescendingUnique` | MySpotify/Pods/WCDBOptimizedSQLCipher/src/analyze.c:1177-1179 | It fails for a value followed by two NULLs, the order of a descending unique index: the second NULL is passed as a change |
| `ChangeDetect.TestRow` | MySpotify/Pods/WCDBOptimizedSQLCipher/src/analyze.c:1174-1192 | From next_row, with or without the shortcut: regChng gets what is passed for the next row, and regPrev is ready for the one after |
| `ChangeDetect.TestFrom` | MySpotify/Pods/WCDBOptimizedSQLCipher/src/analyze.c:1184-1206 | From any test on: the first changed column ends up in regChng and regPrev holds values equal to the current row, though only a suffix is rewritten |
| `ChangeDetect.CopyFrom` | MySpotify/Pods/WCDBOptimizedSQLCipher/src/analyze.c:1203-1206 | From chng_addr_i on: exactly the columns from i are copied |
| `ChangeDetect.PushRow` | MySpotify/Pods/WCDBOptimizedSQLCipher/src/analyze.c:1241-1244 | stat_push, Next and the tests get the machine from one row to the next |
| `ChangeEmit.EmitScan` | MySpotify/Pods/WCDBOptimizedSQLCipher/src/analyze.c:1145-1244 | The generator, with its forward jumps patched later, its label and the shortcut exactly for single-column unique indexes, emits a program of that shape behind what was there |
| `ChangeEmit.EmitTests` | MySpotify/Pods/WCDBOptimizedSQLCipher/src/analyze.c:1184-1192 | The test loop emits three instructions a column and remembers where the open jumps are |
| `ChangeEmit.EmitCopies` | MySpotify/Pods/WCDBOptimizedSQLCipher/src/analyze.c:1202-1206 | The copy loop closes every open jump with the address of its own copy instruction |
| `ChangeEmit.PushesDescribe` | MySpotify/Pods/WCDBOptimizedSQLCipher/src/analyze.c:1064-1076 | The columns that the program pushes for an index in order describe its rows as the STAT4 results require, for any number of tested columns that leaves at most one further column to tell neighbours apart |
| `ChangeEmit.EmittedScanIsExact` | MySpotify/Pods/WCDBOptimizedSQLCipher/src/analyze.c:1145-1244 | Main result, from instructions to samples: an emitted program that scans an index in order ends, and the sampler that is given what it pushed ends with exact samples, whatever sample limit and tie-breaker; with the shortcut, if rows behind a value are distinct |
| `BackupRun.RunKeeps` | MySpotify/Pods/WCDBOptimizedSQLCipher/src/backup.c:371-771 | Main result. In every state of every run of steps, source writes, truncations and changes by others, for any two page sizes: unless the handle has failed or finished, every source byte before iNext outside the unused pages is in the destination, page count aside; an unlocked or unattached handle has not begun |
| `BackupRun.StepKeeps` | MySpotify/Pods/WCDBOptimizedSQLCipher/src/backup.c:371-620 | A step with any page count and any replies of the layers below keeps that invariant, given that page failures are fatal |
| `BackupRun.WriteKeeps` | MySpotify/Pods/WCDBOptimizedSQLCipher/src/backup.c:713-737 | A reported write of any page, copied or not, overwriting or extending, keeps it |
| `BackupRun.CopyLoopKeeps` | MySpotify/Pods/WCDBOptimizedSQLCipher/src/backup.c:434-449 | The copying loop keeps everything before iNext current from wherever it starts, and past a failure only with a fatal code |
| `BackupRun.FatalSticks` | MySpotify/Pods/WCDBOptimizedSQLCipher/src/backup.c:386-387 | DONE and fatal codes stay, and the destination no longer changes, whatever happens |
| `BackupProgress.StepCompletes` | MySpotify/Pods/WCDBOptimizedSQLCipher/src/backup.c:371-620 | With no writer and no failure below, a step of a handle that has answered OK, BUSY or LOCKED so far ends in DONE if and only if the pages it is asked for reach the end of the source, and otherwise moves on by exactly that many pages and is attached; only other page sizes into a WAL or in-memory destination are refused |
| `BackupProgress.RetryableFailureSkipsPage` | MySpotify/Pods/WCDBOptimizedSQLCipher/src/backup.c:434-449 | Why page failures have to be fatal: whatever fails for a page, reading it or writing any part of the copy, the loop ends behind it, so that the handle takes the page for copied, rightly if and only if the destination happens to have its content |
| `BackupAnswers.StepBusy` | MySpotify/Pods/WCDBOptimizedSQLCipher/src/backup.c:393-401 | While the source is inside a write transaction, a step of any handle that has not failed answers BUSY and changes nothing else: not iNext, the lock, the attachment, the counters or the destination |
| `BackupAnswers.StepRefused` | MySpotify/Pods/WCDBOptimizedSQLCipher/src/backup.c:393-428 | A step that cannot start, by a writer, the read transaction, memory or the lock, in this order, leaves the handle as it was and answers the code of the first failure |
| `BackupAnswers.WalRefused` | MySpotify/Pods/WCDBOptimizedSQLCipher/src/backup.c:432-437 | A destination in WAL mode with another page size: it is locked, nothing is copied, and the handle has failed with READONLY |
| `BackupAnswers.MemoryRefused` | MySpotify/Pods/WCDBOptimizedSQLCipher/src/backup.c:285-290 | A destination in memory with another page size: the first page to be copied fails with READONLY and the destination stays |
| `BackupAnswers.StepAnswers` | MySpotify/Pods/WCDBOptimizedSQLCipher/src/backup.c:434-463 | What a step that could start answers: OK only with pages left and the handle attached, DONE only with none left; then the counters are the number of source pages and the number left to copy; the schema cookie is the one found at the lock; never IOERR_NOMEM |
| `BackupAnswers.StepStuck` | MySpotify/Pods/WCDBOptimizedSQLCipher/src/backup.c:386-387 | A handle with any code but OK, BUSY and LOCKED does nothing |
| `BackupAnswers.FailureIsReported` | MySpotify/Pods/WCDBOptimizedSQLCipher/src/backup.c:386-387 | Over whole runs: the code a handle has failed with stays, and is what finishing it answers, OK for DONE |
| `BackupAnswers.WriteAhead` | MySpotify/Pods/WCDBOptimizedSQLCipher/src/backup.c:713-737 | A write to a page that is still to be copied, or the unused one, or with no handle attached, leaves the handle alone |
| `BackupAnswers.EmptySource` | MySpotify/Pods/WCDBOptimizedSQLCipher/src/backup.c:466-591 | DONE for an empty source, for any two page sizes: the file has the length of one source page and starts with the page of an empty database, whatever the destination was |
| `BackupFile.DoneIsSnapshot` | MySpotify/Pods/WCDBOptimizedSQLCipher/src/backup.c:466-591 | Main result. Over whole runs and for any two page sizes: when the handle says DONE, the destination file is a snapshot of the source as it was at one of the steps of the run, when no write transaction was open on it, of exactly its size, and finishing the handle keeps it and returns OK |
| `BackupFile.StepDone` | MySpotify/Pods/WCDBOptimizedSQLCipher/src/backup.c:393-591 | The step that ends in DONE had no writer on the source and leaves a file of pgszSrc*nSrcPage bytes that agrees with the source at every offset outside the unused page, but for the schema cookie (one more than it was), the WAL versions, the page count, and the change counter and version mark |
| `BackupFile.EvenSnapshot` | MySpotify/Pods/WCDBOptimizedSQLCipher/src/backup.c:582-591 | With destination pages no larger: truncating the image gives exactly the source size and bytes, also for a source that ends on its unused page if the destination pages are smaller |
| `BackupFile.UnusedPageMissing` | MySpotify/Pods/WCDBOptimizedSQLCipher/src/backup.c:582-591 | With equal page sizes a source that ends on its unused page gives a file one page short, unless the file was long enough before |
| `BackupFile.TruncationFits` | MySpotify/Pods/WCDBOptimizedSQLCipher/src/pager.c:4043-4046 | When a backup truncates the image, the image has all the pages that are to stay, as the assertion there demands |
| `BackupFile.LargerSnapshot` | MySpotify/Pods/WCDBOptimizedSQLCipher/src/backup.c:524-581 | With larger destination pages: image, direct writes of the pages inside its unused page, and truncation together give exactly the source size and bytes |
| `BackupFile.TruncationAssert` | MySpotify/Pods/WCDBOptimizedSQLCipher/src/backup.c:508-536 | The number of destination pages kept is positive and meets the assertion about truncation for every pair of page sizes and every page count |
| `BackupFile.WriteExtraAt` | MySpotify/Pods/WCDBOptimizedSQLCipher/src/backup.c:560-574 | The direct writes put the source's bytes everywhere in their range |
| `BackupRollback.UnfinishedRollsBack` | MySpotify/Pods/WCDBOptimizedSQLCipher/src/backup.c:543-553 | Main result. Over whole runs: a handle that is finished before it is DONE gives the destination back the pages it had when a step of the run locked it, all but the unused one, whatever was copied, committed in part, written directly or cut off since; one that never locked it leaves it alone |
| `BackupRollback.EventIntact` | MySpotify/Pods/WCDBOptimizedSQLCipher/src/backup.c:371-771 | Steps, source writes and restarts keep every page of the locked destination within reach of a rollback, in the journal or untouched in the file |
| `BackupRollback.JournalTailSaves` | MySpotify/Pods/WCDBOptimizedSQLCipher/src/backup.c:543-553 | If the journalling loop ends well, journalling was granted for each page from the first truncated one to the last, the unused one excepted, and each that the destination had before is in the journal |
| `BackupRollback.FinishLargerIntact` | MySpotify/Pods/WCDBOptimizedSQLCipher/src/backup.c:543-591 | With larger destination pages, wherever it stops before the commit is over, no page outside the journal has changed in the file: neither by the pages put there, nor by the direct writes, nor by the cut |
| `BackupRollback.PhaseOneIntact` | MySpotify/Pods/WCDBOptimizedSQLCipher/src/pager.c:6432-6460 | Phase one, wherever it stops, changes no page in the file that is not in the journal, but for the unused one |
| `BackupRollback.CutPageJournalled` | MySpotify/Pods/WCDBOptimizedSQLCipher/src/backup.c:543-577 | Every destination page that reaches beyond the size of the source is among those that the loop journals |
| `BackupRollback.RollbackRestores` | MySpotify/Pods/WCDBOptimizedSQLCipher/src/pager.c:2847-2943 | With the journal and the untouched pages of the file, a rollback gives back the old number of pages, each as it was but for the unused one |
| `BackupFile.DoneByStep` | MySpotify/Pods/WCDBOptimizedSQLCipher/src/backup.c:731-734 | Only a step turns a handle to DONE, and only one that had not failed |
| `BackupCopy.CopyPageAt` | MySpotify/Pods/WCDBOptimizedSQLCipher/src/backup.c:308-333 | A copied page arrives whole, whatever the two page sizes, except what falls on the unused page of the destination |
| `BackupCopy.CopyPageElsewhere` | MySpotify/Pods/WCDBOptimizedSQLCipher/src/backup.c:308-333 | Copying a page, even when it fails half-way, changes no byte of another page |
| `BackupPages.PendingSpan` | MySpotify/Pods/WCDBOptimizedSQLCipher/src/pager.h:53 | The unused page starts at PENDING_BYTE for every page size |
| `BackupPages.FlattenAt` | MySpotify/Pods/WCDBOptimizedSQLCipher/src/backup.c:586-587 | The file made of the pages has their byte at every offset |
| `BackupHandle.Handle.constructor` | MySpotify/Pods/WCDBOptimizedSQLCipher/src/backup.c:198-206 | A new handle starts at page 1, detached and unlocked |
| `BackupHandle.Handle.BackupOnePage` | MySpotify/Pods/WCDBOptimizedSQLCipher/src/backup.c:247-336 | The copy on the handle refines the specified copy of one page |
| `BackupHandle.Handle.CopyPages` | MySpotify/Pods/WCDBOptimizedSQLCipher/src/backup.c:434-449 | The loop on the handle refines the specified copying loop |
| `BackupHandle.Handle.CompleteBackup` | MySpotify/Pods/WCDBOptimizedSQLCipher/src/backup.c:466-591 | The tail of a step refines the specified completion |
| `BackupHandle.Handle.FinishIntoLarger` | MySpotify/Pods/WCDBOptimizedSQLCipher/src/backup.c:524-591 | Journalling, phase one and the direct writes refine the specification, each failure at its place |
| `BackupHandle.Handle.JournalPages` | MySpotify/Pods/WCDBOptimizedSQLCipher/src/backup.c:543-553 | The loop journals exactly what the specified one does, page by page up to the first refusal |
| `BackupHandle.Handle.BeginStep` | MySpotify/Pods/WCDBOptimizedSQLCipher/src/backup.c:393-437 | The write transaction on the source, the read transaction, the lock and the WAL restriction are looked at in the specified order with the specified codes |
| `BackupHandle.SrcPager.BackupStep` | MySpotify/Pods/WCDBOptimizedSQLCipher/src/backup.c:371-620 | A call on the object refines the specified step; the handle is put on the pager's list exactly when it becomes attached |
| `BackupHandle.SrcPager.AttachBackupObject` | MySpotify/Pods/WCDBOptimizedSQLCipher/src/backup.c:359-366 | The handle becomes the head of the linked list, the rest keeps its order |
| `BackupHandle.SrcPager.BackupFinish` | MySpotify/Pods/WCDBOptimizedSQLCipher/src/backup.c:625-671 | The handle leaves the linked list wherever it was, the order of the others stays, an open transaction is rolled back, and DONE is reported as OK |
| `BackupHandle.SrcPager.BackupUpdate` | MySpotify/Pods/WCDBOptimizedSQLCipher/src/backup.c:713-740 | The walk over the list gives every handle on it the specified update, each its own |
| `BackupHandle.SrcPager.WriteSource` | MySpotify/Pods/WCDBOptimizedSQLCipher/src/backup.c:713-740 | A written page reaches every handle on the list, the unused page none |
| `BackupHandle.SrcPager.BackupRestart` | MySpotify/Pods/WCDBOptimizedSQLCipher/src/backup.c:753-759 | The walk over the list puts every handle on it back to page 1 |
| `Bitvec.Bitvec.constructor` | MySpotify/Pods/WCDBOptimizedSQLCipher/src/bitvec.c:117-123 | A new vector is the empty set |
| `Bitvec.Bitvec.TestNotNull` | MySpotify/Pods/WCDBOptimizedSQLCipher/src/bitvec.c:130-152 | The test descends to the right child and answers membership in the abstract set, for 0 and numbers beyond the size too |
| `Bitvec.BitvecTest` | MySpotify/Pods/WCDBOptimizedSQLCipher/src/bitvec.c:153-156 | The same for a pointer that may be null |
| `Bitvec.Bitvec.Set` | MySpotify/Pods/WCDBOptimizedSQLCipher/src/bitvec.c:156-232 | Main result. In every representation: it succeeds if and only if every request for memory was granted, and then the set is the old one with i; if the first request is refused nothing changes, and after a later refusal the set is still a subset of that, in a sound structure |
| `Bitvec.BitvecSet` | MySpotify/Pods/WCDBOptimizedSQLCipher/src/bitvec.c:156-232 | The same for a pointer that may be null, which is a success without effect |
| `Bitvec.Bitvec.Subdivide` | MySpotify/Pods/WCDBOptimizedSQLCipher/src/bitvec.c:209-226 | Turning a full hash into a tree keeps the set and adds i, and succeeds if and only if every request for memory was granted; a refusal on the way loses members but adds none |
| `Bitvec.Bitvec.Clear` | MySpotify/Pods/WCDBOptimizedSQLCipher/src/bitvec.c:240-272 | After a clear the set is the old one without i, in every representation |
| `Bitvec.BitvecClear` | MySpotify/Pods/WCDBOptimizedSQLCipher/src/bitvec.c:240-272 | The same for a pointer that may be null |
| `Bitvec.Bitvec.Destroy` | MySpotify/Pods/WCDBOptimizedSQLCipher/src/bitvec.c:277-287 | The nodes form a tree without sharing: each is freed once, its children with it, the root last |
| `Bitvec.TestHash` | MySpotify/Pods/WCDBOptimizedSQLCipher/src/bitvec.c:144-151 | The probe loop ends and finds exactly the stored values |
| `Bitvec.FindSlot` | MySpotify/Pods/WCDBOptimizedSQLCipher/src/bitvec.c:194-208 | The probe of a taken slot ends at the value or at the first free slot behind it |
| `Bitvec.Rebuild` | MySpotify/Pods/WCDBOptimizedSQLCipher/src/bitvec.c:254-270 | Emptying the table and putting all values but one back keeps the others findable |
| `BitvecHash.NotMissed` | MySpotify/Pods/WCDBOptimizedSQLCipher/src/bitvec.c:144-151 | A value that is not on its probe path up to the first free slot is not in the table |
| `BitvecHash.InsertKeeps` | MySpotify/Pods/WCDBOptimizedSQLCipher/src/bitvec.c:188-208 | Storing a value at the free slot its probe ends at keeps every other value findable |
| `Bitvec.SplitBounds` | MySpotify/Pods/WCDBOptimizedSQLCipher/src/bitvec.c:175-183 | In a subdivided vector every number has a bin below BITVEC_NPTR, and the children are smaller |
| `Bitvec.SplitInjective` | MySpotify/Pods/WCDBOptimizedSQLCipher/src/bitvec.c:179-183 | Two numbers never share both bin and number within the bin |
| `Bitvec.FourLevels` | MySpotify/Pods/WCDBOptimizedSQLCipher/src/bitvec.c:209-211 | With the 64-bit constants four levels of subdivision are enough for every 32-bit size, and needed for the largest |
| `Bitvec.TreeDepth` | MySpotify/Pods/WCDBOptimizedSQLCipher/src/bitvec.c:209-226 | No path in a sound vector has more than five nodes |
| `BitvecSelfTest.BuiltinTest` | MySpotify/Pods/WCDBOptimizedSQLCipher/src/bitvec.c:337-403 | Main result. For every size, every well-formed program and all random numbers, the self-test ends; it returns -1 if and only if a request for memory was refused, and otherwise the first number that the operations of the program leave different in the linear array and the bit vector, 0 if there is none, as without opcode 5 |
| `BitvecProgram.FaultsShow` | MySpotify/Pods/WCDBOptimizedSQLCipher/src/bitvec.c:323-335 | The two differ at exactly those numbers that opcode 5 sets when the vector does not have them, and that no other opcode works on later |
| `BitvecProgram.FaultlessWork` | MySpotify/Pods/WCDBOptimizedSQLCipher/src/bitvec.c:316-335 | A program without opcode 5 asks for no such operation |
| `BitvecSelfTest.Fetch` | MySpotify/Pods/WCDBOptimizedSQLCipher/src/bitvec.c:362-383 | Counting an instruction down in place, and moving its start on, carries out the operations that it stands for one by one |
| `MutexProtocol.DeadlockFree` | MySpotify/Pods/WCDBOptimizedSQLCipher/src/btmutex.c:71-137 | Main result. In every reachable state of any number of connections, wherever one waits some connection that holds a mutex another waits for can move on |
| `MutexProtocol.WaitsAboveHeld` | MySpotify/Pods/WCDBOptimizedSQLCipher/src/btmutex.c:105-137 | Whoever waits for a mutex holds only mutexes of lower address, although the try-lock may take them out of order |
| `MutexProtocol.NoWaitCycle` | MySpotify/Pods/WCDBOptimizedSQLCipher/src/btmutex.c:105-137 | There is no circle of waiting connections |
| `MutexProtocol.EveryDrainQuiesces` | MySpotify/Pods/WCDBOptimizedSQLCipher/src/btmutex.c:71-155 | Once no call is begun, every way of finishing the running ones ends after finitely many steps with all mutexes free |
| `MutexProtocol.StepKeeps` | MySpotify/Pods/WCDBOptimizedSQLCipher/src/btmutex.c:27-155 | Every step of every connection keeps the invariant that locked flags and mutex owners agree and held mutexes are below the one waited for |
| `MutexProtocol.RunKeeps` | MySpotify/Pods/WCDBOptimizedSQLCipher/src/btmutex.c:27-155 | Every state of every interleaving meets it |
| `MutexProtocol.LockAccounting` | MySpotify/Pods/WCDBOptimizedSQLCipher/src/btmutex.c:71-155 | In every interleaving wantToLock is the number of unmatched calls, and between calls a connection holds exactly the mutexes of the handles wanted |
| `MutexProtocol.RunWalks` | MySpotify/Pods/WCDBOptimizedSQLCipher/src/btmutex.c:71-152 | What any interleaving has of one connection is a walk: its own steps, one after the other |
| `BtreeLocks.LockBtreeMutex` | MySpotify/Pods/WCDBOptimizedSQLCipher/src/btmutex.c:27-35 | Called only when every mutex that the thread holds has a lower address; the mutex is taken, the BtShared names its owner and the handle is marked locked |
| `BtreeLocks.UnlockBtreeMutex` | MySpotify/Pods/WCDBOptimizedSQLCipher/src/btmutex.c:41-50 | The mutex is free again and the handle not locked |
| `BtreeLocks.BtShared.EnterMutex` | MySpotify/Pods/WCDBOptimizedSQLCipher/src/btmutex.c:32 | A thread waits for a mutex only while every mutex it holds has a lower address |
| `BtreeLocks.BtreeLockCarefully` | MySpotify/Pods/WCDBOptimizedSQLCipher/src/btmutex.c:105-137 | Whether the try succeeds or the later mutexes are given up and taken again, exactly the wanted handles are locked afterwards, and the mutex calls made are steps of one call of the protocol |
| `BtreeLocks.BackOff` | MySpotify/Pods/WCDBOptimizedSQLCipher/src/btmutex.c:118-136 | After a failed try the later mutexes are given up, the thread waits, and what was given up is taken again in order, as the protocol does |
| `BtreeLocks.Thread.Advance` | MySpotify/Pods/WCDBOptimizedSQLCipher/src/btmutex.c:71-152 | The steps of the protocol that a thread has made, and the mutex calls of the code, remain the same calls in the same order |
| `BtreeLocks.BtreeEnter` | MySpotify/Pods/WCDBOptimizedSQLCipher/src/btmutex.c:71-97 | A call adds one to the wanted count and leaves exactly the wanted handles locked; its mutex calls are, in order, those of one Enter of the protocol and the steps that complete it |
| `BtreeLocks.BtreeLeave` | MySpotify/Pods/WCDBOptimizedSQLCipher/src/btmutex.c:143-152 | A call takes one off and unlocks at zero only; its mutex calls are those of one Leave of the protocol |
| `BtreeLocks.Connection.EnterAll` | MySpotify/Pods/WCDBOptimizedSQLCipher/src/btmutex.c:186-202 | Every database of the connection is entered once for each place it has in aDb, unless there is no shared cache |
| `BtreeLocks.Connection.LeaveAll` | MySpotify/Pods/WCDBOptimizedSQLCipher/src/btmutex.c:203-214 | The reverse |
| `BtreeLocks.Connection.EnterAllLeaveAll` | MySpotify/Pods/WCDBOptimizedSQLCipher/src/btmutex.c:186-214 | Entering and leaving all restores counts, locks and owners |
| `RenameEdit.RenameEditSql` | MySpotify/Pods/WCDBOptimizedSQLCipher/src/alter.c:997-1065 | Main result. For any order of a list of disjoint tokens, the in-place editing loop gives the simultaneous substitution of all of them, and never writes beyond the reserved buffer; in the result each token has given way to the new name itself if it began with an identifier character and not all are to be quoted, and otherwise to a quoted text that reads as the new name, and every other character is as it was |
| `RenameText.SimultaneousRenames` | MySpotify/Pods/WCDBOptimizedSQLCipher/src/alter.c:1028-1061 | Substituting all tokens at once puts the right text for the new name in the place of each and keeps everything between them |
| `RenameText.QuotedReads` | MySpotify/Pods/WCDBOptimizedSQLCipher/src/alter.c:1012-1022 | Every name can be read back from its quoted form: the outer quotes and the doubling of inner ones are undone, and no single quote character is left inside |
| `RenameEdit.EditLast` | MySpotify/Pods/WCDBOptimizedSQLCipher/src/alter.c:1032-1061 | One turn of the loop substitutes the last remaining token and leaves the text before it as it was |
| `RenameEdit.TokenList.TokenNext` | MySpotify/Pods/WCDBOptimizedSQLCipher/src/alter.c:852-867 | The token that starts last in the text is unlinked, the order of the others stays |
| `RenameEdit.TokenList.TokenFind` | MySpotify/Pods/WCDBOptimizedSQLCipher/src/alter.c:775-788 | The first token of the object asked for moves from the parse list to the front of the context's list, and is counted |
| `RenameEdit.Memmove` | MySpotify/Pods/WCDBOptimizedSQLCipher/src/alter.c:1052-1056 | An overlapping move copies the old contents |
| `RenameEdit.ReplaceAt` | MySpotify/Pods/WCDBOptimizedSQLCipher/src/alter.c:1044-1060 | The buffer has the text with the piece replaced, and its terminator |
| `RenameText.EditOne` | MySpotify/Pods/WCDBOptimizedSQLCipher/src/alter.c:1032-1061 | Substituting the last token in an already edited text is substituting it together with those behind it |
| `RenameText.ResultHasNoNul` | MySpotify/Pods/WCDBOptimizedSQLCipher/src/alter.c:1063 | The result has no terminator inside, so the whole text is handed on |
| `LrRun.RunSound` | MySpotify/Pods/WCDBOptimizedSQLCipher/parse.c:5135-5289 | Main result. For any tables consistent with a grammar, in every state of every run: the stack is within its array, the trees of its symbols spell the tokens shifted, and acceptance means that these tokens derive from the start symbol |
| `LrRun.IterateSound` | MySpotify/Pods/WCDBOptimizedSQLCipher/parse.c:5171-5289 | One round of the driver keeps this, whatever the token |
| `LrRun.NeverStuck` | MySpotify/Pods/WCDBOptimizedSQLCipher/parse.c:5171-5289 | In a sound state every token has a next round: the assertions of the engine hold |
| `LrRun.ActionReady` | MySpotify/Pods/WCDBOptimizedSQLCipher/parse.c:3101-3128 | Whenever the driver decides to reduce, the right-hand side is on the stack and the goto lookup meets its assertions |
| `LrRun.ReduceSound` | MySpotify/Pods/WCDBOptimizedSQLCipher/parse.c:5021-5038 | A reduction replaces the right-hand side by one symbol that spells the same tokens and leaves a right state on top; an empty one with a full stack empties it |
| `LrRun.ShiftSound` | MySpotify/Pods/WCDBOptimizedSQLCipher/parse.c:2270-2307 | A shift pushes the token under the state or the pending reduction, or empties a full stack |
| `LrRun.ShiftReduceDefers` | MySpotify/Pods/WCDBOptimizedSQLCipher/parse.c:2299-2301 | SHIFTREDUCE is a shift now and exactly that reduction at the next look, whatever token comes then |
| `LrRun.AcceptedDerives` | MySpotify/Pods/WCDBOptimizedSQLCipher/parse.c:5180-5183 | At acceptance one symbol is on the stack, the start symbol, and the tokens shifted derive from it in the full grammar |
| `LrRun.RunExtends` | MySpotify/Pods/WCDBOptimizedSQLCipher/parse.c:5171-5289 | Every run can be continued with every token |
| `LrTrees.BuiltDerives` | MySpotify/Pods/WCDBOptimizedSQLCipher/parse.c:4960-4995 | What the parser builds, with optimized-out rules missing, is a derivation of the full grammar with those rules put back |
| `LrTables.FindShiftStandsFor` | MySpotify/Pods/WCDBOptimizedSQLCipher/parse.c:2127-2186 | An action is the default or the table entry of a token the input token may stand for: itself, its fallback or the wildcard |
| `LrTables.FindShiftPrefers` | MySpotify/Pods/WCDBOptimizedSQLCipher/parse.c:2127-2186 | Which entry it is: the one of the token itself, else of its fallback, else of the wildcard, else the default |
| `LrParser.Parser.constructor` | MySpotify/Pods/WCDBOptimizedSQLCipher/parse.c:1826-1851 | The stack starts with state 0 alone |
| `LrParser.Parser.FindShiftAction` | MySpotify/Pods/WCDBOptimizedSQLCipher/parse.c:2127-2186 | The lookup loop with fallback and wildcard ends and finds the specified action |
| `LrParser.Parser.YyShift` | MySpotify/Pods/WCDBOptimizedSQLCipher/parse.c:2270-2307 | The push on the array refines the specified shift, overflow included |
| `LrParser.Parser.YyReduce` | MySpotify/Pods/WCDBOptimizedSQLCipher/parse.c:3101-5038 | The change of the array refines the specified reduction, overflow included |
| `LrParser.Parser.StackOverflow` | MySpotify/Pods/WCDBOptimizedSQLCipher/parse.c:2227-2245 | All symbols are popped |
| `LrEnds.DriveEnds` | MySpotify/Pods/WCDBOptimizedSQLCipher/parse.c:5171-5289 | Main result. Tables without circles of reductions, a finite check: the loop ends with every token from every sound state, after no more rounds than stack height and rank add up to |
| `LrEnds.ReductionFalls` | MySpotify/Pods/WCDBOptimizedSQLCipher/parse.c:5021-5038 | Every reduction lowers the sum of stack height and rank of the state on top, also one that pushes without popping |
| `LrEnds.ParsedEnds` | MySpotify/Pods/WCDBOptimizedSQLCipher/parse.c:5135-5289 | Every input is therefore answered, and no larger bound on the rounds makes a difference |
| `LrDrive.DriveIsRun` | MySpotify/Pods/WCDBOptimizedSQLCipher/parse.c:5171-5289 | Feeding a token continues a run by one state for each round taken, and ends in its last state |
| `LrDrive.ParsedDerives` | MySpotify/Pods/WCDBOptimizedSQLCipher/parse.c:5135-5289 | An input that is accepted as a whole derives from the start symbol |
| `LrAccepts.AcceptsExactly` | MySpotify/Pods/WCDBOptimizedSQLCipher/parse.c:5135-5289 | Main result. An input is accepted if and only if there is a tree over its tokens that the tables follow, by shifts, reductions and gotos under the token that comes next, to the accept action, and that the stack has room for; the parser is then in its first state again |
| `LrComplete.FollowedIsAccepted` | MySpotify/Pods/WCDBOptimizedSQLCipher/parse.c:5171-5289 | Every tree that the tables follow is parsed and accepted, empty rules, deferred reductions, fallback and wildcard included |
| `LrParser.Parser.Feed` | MySpotify/Pods/WCDBOptimizedSQLCipher/parse.c:5135-5289 | The loop ends, in exactly the state and with exactly the answer of the specified driver; shifted means the stack spells one token more, accepted that what it spelled derives from the start symbol, refused that it spells the same as before |
| `LrParser.Parser.Parse` | MySpotify/Pods/WCDBOptimizedSQLCipher/parse.c:5135-5289 | The whole input ends in exactly the state and the answer of the specified driver; from a fresh parser it is accepted if and only if the tables follow a tree over it that the stack has room for, and then it derives from the start symbol |
| `ExprRewrite.BuildKeepsMeaning` | MySpotify/Pods/WCDBOptimizedSQLCipher/parse.c:4263-4368 | Main result. Every scalar expression, in every row, evaluates as written after IS and IS NOT NULL, [NOT] BETWEEN, [NOT] IN and AND have been rewritten; in rename mode every expression without an empty IN list |
| `ExprRewrite.InTreeSearches` | MySpotify/Pods/WCDBOptimizedSQLCipher/parse.c:4316-4366 | [NOT] IN with no, one or more elements, each rewritten its own way, finds what searching the list finds |
| `ExprRewrite.SearchIsDisjunction` | MySpotify/Pods/WCDBOptimizedSQLCipher/parse.c:4316-4366 | Searching a list for an equal value, NULL aside, is the three-valued disjunction of the equalities |
| `ExprRewrite.IsTree` | MySpotify/Pods/WCDBOptimizedSQLCipher/parse.c:155-162 | IS and IS NOT keep their meaning also where they become ISNULL and NOTNULL |
| `ExprRewrite.RenameEmptyIn` | MySpotify/Pods/WCDBOptimizedSQLCipher/parse.c:4317-4329 | In rename mode an empty IN list keeps its meaning exactly where the operand already has the value of the test |
| `ExprRewrite.ExprAnd` | MySpotify/Pods/WCDBOptimizedSQLCipher/src/expr.c:922-936 | The constant that replaces a conjunction with a constant false evaluates as the conjunction does |
| `ExprRewrite.IntegerOf` | MySpotify/Pods/WCDBOptimizedSQLCipher/src/expr.c:2082-2112 | A tree recognised as an integer evaluates to it in every row |

## Left out

Weaker than the code:

- Stat4Object.Stat4Accum.SampleInsert: samples are values, so the recycling of the anEq, anLt and anDLt buffers of an evicted sample is not modelled.
- Bitvec.Bitvec.Set: the descent to a child is written as a call of the child; the source loops. The union of bitmap, hash and children is three fields.
- Bitvec.Bitvec.Clear: the same descent.
- BtreeLocks.BtreeLeave: on a handle that is not sharable nothing happens; the assertions about its connection are not modelled.
- BackupRun.WriteKeeps: the source grows page by page in order, each new page reported; pages that the pager leaves unwritten are not modelled.
- BackupFile.StepDone: says nothing about a source that ends on its unused page with destination pages that are not smaller; the empty source is in BackupAnswers.EmptySource.
- BackupRollback.UnfinishedRollsBack: in WAL mode there is no rollback journal; the file stands for the committed content, and the journal for what the cache can give back.
- BackupRollback.RollbackRestores: a journal that was itself written in part, and the syncs that keep its order with the file, are not modelled.
- LrTrees.BuiltDerives: a place of a rule may accept a set of symbols, as multi-terminal places do in the grammar.
- ExprRewrite.BuildKeepsMeaning: affinity, collation, text and real values are not modelled; the trees are values, so the overwriting of a node by the IS rules is a new tree.
- ChangeEmit.EmitScan: without the emission of the primary key record for tables without rowid and the out-of-memory exit.

Not modelled:

- The headers, Swift files and other pods of the application: interfaces or user interface code without an algorithm shown.
- ANALYZE: LogEst, loading of the stat tables, initAvgEq, rowids as blobs, STAT3 builds; counters are unbounded except in the round trip.
- Backup: pager cache and locks, crash recovery, fsync, codec and reserve bytes, encrypted databases, sqlite3BtreeCopyFile; in WAL mode "the file" is the committed content.
- Bitvec: sqlite3BitvecSize, builds with other constants.
- Btree mutexes: threads that use Btrees of two connections, builds without threads or shared cache, the assertion helpers; handle lists are fixed.
- Rename: parsing, name resolution, walkers; the tokens are given.
- Parser: the contents of the tables, destructors and semantic values, error recovery (switched off by YYNOERRORRECOVERY), tracing.
- Grammar actions other than those for IS, BETWEEN, IN with a list, AND, OR, NOT, signs and comparisons.
- malloc outside the bitvec and the reply of the backup that stands for it; there it succeeds.
