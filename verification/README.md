# PrismDB, modelled in Dafny

A model of the storage and transaction core of PrismDB and proofs about it. One module per component,
each in the form of the Rust code: objects are classes with `modifies` clauses, loops are loops,
protocols run by several threads are state machines over their single steps, and everything that only
computes is a function. `dafny verify dfyconfig.toml` checks the whole project.

| component | modules | what is proved of it |
|---|---|---|
| visibility and the transaction manager | `Visibility`, `TxnManager` | exactly when a snapshot is stable and closed |
| version chains under interleaving | `Mvcc`, `Overlap`, `ReadOnlyWrites` | xmax written once, durability and atomicity over crashes, and exactly which writes are durable; stable snapshots and one visible version per chain, and exactly when begins break them |
| the bank workload | `Bank`, `SplitRead` | the total is the same for every scan, in every interleaving and after every crash; what a reader finds that goes from account to account |
| recovery | `Redo`, `Recovery` | LSN-skipping redo equals full replay, can be stopped and run again, and fails exactly when redo does |
| record store | `RecordHeader`, `StoreLog`, `Store` | pages follow the log row by row; a scan after recovery returns exactly the live rows |
| restart and version chains on pages | `Restart`, `StoreVersions`, `StoreChains`, `StoreReads` | every snapshot after a restart is one the recovered rows are right for; the rows on pages are the versions of `Mvcc`, every operation of the store keeps them so, and a read of a row finds the version that a read of the chain does |
| lock manager | `WaitGraph`, `LockManager`, `LockProgress` | exclusion, acyclic waiting, no lost wake-up, no stuck group, no false deadlock, and how a blocked transaction gets its lock |
| slotted page | `Bytes`, `SlottedPage` | the byte buffer refines a map from slots to records |
| buffer pool | `BufferPool`, `FlushRace` | a transparent cache; exactly when a background flush keeps it one and keeps the log ahead of the disk |
| write-ahead log | `WalFrames`, `Wal` | replay returns what was appended, and exactly when it does not |
| B+tree | `Seqs`, `Entries`, `BTreeShape`, `BTreePages`, `BTreeList`, `BTreeSize`, `BTree`, `BTreeRefusal` | an ordered map on pages, across every split, with a fixed root; exactly when an insert is refused, and what it leaves |
| key-value namespace | `Kv` | a transactional map over the B+tree, and exactly what an abort or a refused index entry loses |
| SQL values and rows | `CivilDate`, `SqlRow` | calendar conversion both ways; rows come back, and exactly when they do not |
| document queries | `DocQuery`, `DocQueryExact` | the codec is inverse on its image and ends on every input; exactly which bytes it accepts |

## What a reader should know

Nine things the code is meant to do it does only under a condition. In each case the condition is
proved to be the exact one, or the failing case is given:

- **Overlapping begins.** `begin` takes its id before the active-set lock. An id in between is neither
  active nor beyond the snapshot, contrary to the comment at crates/prism-core/src/txn.rs:208-209. A
  snapshot taken then is not stable, and only then (`TxnManager.SnapshotStableIff`,
  `TxnManager.SnapshotClosedIff`, `Overlap.StableIff`). From every such state a run goes on to a reader
  that sees two versions of one row (`Overlap.OverlapShowsTwo`). `Mvcc.AtMostOneVisible` and
  `Mvcc.ReadFromHead` are therefore about runs in which no transaction registers while another id is still
  waiting to. The bank needs no such condition, because a transfer knows its rows before it begins
  (`Bank.BankTotal`, `Bank.BankOneVisible`); but a reader that goes from account to account can still take
  one balance from before a transfer and one from after it (`SplitRead.SplitReadDiffers`).
- **Writes through read-only handles.** The store does not look at the mode before it writes, nor does a
  session that resumes a client's transaction (crates/prism-server/src/session.rs:481-512,595-625), but the
  commit of a read-only one leaves no record (crates/prism-core/src/txn.rs:300-302). What a transaction wrote
  survives a crash if and only if it was read-write (`ReadOnlyWrites.WritesSurviveIff`), and a read-write
  transaction that built on what does not leaves two versions of one row (`ReadOnlyWrites.ReadOnlyWriteForks`).
- **Background flushes.** `flush_matching` looks at a frame three times and lets go of it in between
  (crates/prism-buffer/src/pool.rs:274-298). The copy is harmless exactly when `BufferPool.SafeNow` holds
  of what the frame has become (`BufferPool.CopyIff`), and marking it clean exactly under
  `BufferPool.ClearIff`. Otherwise a page can reach the disk ahead of its log, another page's content can
  come back, or a change can be dropped (`FlushRace`).
- **Long index keys.** Nodes are split by count, not by size. Keys above 256 bytes can make a half too
  large, and an insert refused after a child was split forgets the entries of the new half, other keys'
  included (`BTree.BTree.Insert`, `BTreeRefusal`). A range scan goes on returning them
  (`BTreeRefusal.RangeFindsLostKey`). `put` accepts 1024 bytes (`Kv.KvNamespace.Put`).
- **Leftover bytes in the log.** After reopening over a torn record, the first append overwrites it, as
  crates/prism-wal/src/wal.rs:86-87 says, but a rotation before that leaves it, and replay stops there.
  `Wal.AppendReplaysIff`, `Wal.RotateReplaysIff`, `Wal.TornTailHidesRotation`.
- **Aborts and the key-value index.** The index is not rolled back: a key deleted, put again and aborted
  loses its committed value (`Kv.AbortIff`, `Kv.LostByAbort`), and a key written and aborted can never be
  written again (`Kv.ConflictIff`, `Kv.StuckByAbort`).
- **Lock ids used again.** A waiter that has been woken keeps its recorded wait until it takes the record
  (crates/prism-core/src/lock.rs:104-109,120-141). A transaction that asks for a lock after its
  `release_all` can meet that wait and be refused for a cycle that is not there (`LockProgress.PhantomCycle`);
  if none does, every refusal is a real deadlock (`LockProgress.RefusalIsDeadlock`). Commit and abort release
  last (crates/prism-core/src/txn.rs:306,325).
- **Text offsets.** They are cut to 16 bits. `SqlRow.RowRoundTripIff`, `SqlRow.LongTextLost`.
- **Back pointers.** They keep 32 bits of the page number. `RecordHeader.Encode6RoundTripIff`.

Index pages are logged before their LSN is set, so redo restores their content and leaves their LSN
field zero; equality of index pages is stated up to that field.

How the outside is represented:

- The disk is a map from page numbers to pages. A page that is missing or fails its checksum is not in
  it. In a crash state every page on disk is a complete earlier version of itself.
- Checksums, UTF-8 validity, timestamp parsing and integer-to-double conversion are parameters. On
  reopening a log, a frame that the scan of the active segment comes to and that passes its checksum is
  one that was written there.
- A commit or abort is five steps; a begin is two. The runs of `Mvcc` are those whose writes go through
  read-write handles; `ReadOnlyWrites` has the rest.
- The lock manager has one latch per record, the finest sharding; coarser shards allow fewer interleavings.
- LSNs in the store model are consecutive numbers; `Wal` has the real ones.

## Model

| member | source | states |
|---|---|---|
| `Visibility.WritableIsUnstamped` | crates/prism-core/src/store.rs:230-238 | a version passes the write check exactly when its creator is visible and nobody has stamped it: the comparison with the caller's own id never decides |
| `Mvcc.RunInv` | crates/prism-core/src/store.rs:152-200 | every state reachable by interleaving the single steps of begins (id first, registration and snapshot later), inserts, updates, refused updates and deletes through read-write handles, commits, aborts and crashes satisfies the invariant the theorems below rest on |
| `Mvcc.StepKeepsInv` | crates/prism-core/src/store.rs:152-200 | each single step keeps that invariant |
| `Mvcc.SoloRunInv` | crates/prism-core/src/txn.rs:203-230 | runs in which no id is registered while another is waiting to be also keep every snapshot settled and closed |
| `Mvcc.StepKeepsApart` | crates/prism-core/src/txn.rs:203-230 | each step of such a run keeps them so |
| `Mvcc.SettledStep` | crates/prism-core/src/txn.rs:203-230 | a snapshot that was settled when taken stays so over every step, overlapping begins included |
| `Mvcc.ParentsLinked` | crates/prism-core/src/store.rs:152-184 | in any log the store writes, whatever was replaced had itself replaced its predecessor |
| `Mvcc.StamperNewest` | crates/prism-core/src/store.rs:152-184 | the version whose creator stamped its predecessor is the last to have replaced it |
| `Mvcc.LinkedUnforked` | crates/prism-core/src/store.rs:152-184 | the linked versions of a chain together with its newest one do not fork |
| `Mvcc.AtMostOneVisible` | crates/prism-core/src/store.rs:128-200 | in every state reachable without overlapping begins, at most one version of a chain is visible to a transaction between operations, whatever unfinished updates are about |
| `Mvcc.OneReplacement` | crates/prism-core/src/store.rs:152-184 | in any log the store writes, no transaction supersedes the same version twice, so chains of stamped versions do not fork |
| `Mvcc.CommittedLinked` | crates/prism-core/src/store.rs:152-184 | every version whose creator has a Commit record was linked: its predecessor carries the creator's stamp |
| `Mvcc.ReadFrom` | crates/prism-core/src/store.rs:128-147 | the walk back from a version ends at a visible version of the same chain, not newer than where it started |
| `Mvcc.ReadFromHead` | crates/prism-core/src/store.rs:128-147 | in such a state `read` from the newest version of a chain returns the visible version, whichever it is, even with cut-off or unfinished updates in the chain |
| `Mvcc.ReadFromSeen` | crates/prism-core/src/store.rs:128-147 | in such a state `read` from any version the reader sees created finds the visible version if that is older |
| `Mvcc.StampedOnce` | crates/prism-core/src/store.rs:311-343 | over every run, crashes included, the xmax of a version is written at most once |
| `Mvcc.SnapshotClosed` | crates/prism-core/src/visibility.rs:31-45 | where whatever a transaction built on was over before any snapshot that counts it as over, a running transaction that sees the effects of `u` sees those of every transaction `u` built a version on |
| `Mvcc.SeesOne` | crates/prism-core/src/store.rs:128-200 | in every state so closed, overlapping begins or not, a transaction between operations sees at most one version of a chain |
| `Mvcc.HiddenStays` | crates/prism-core/src/visibility.rs:17-45 | settled or not, a version whose creation a transaction sees, once hidden from it, stays hidden |
| `Mvcc.StableStep` | crates/prism-core/src/visibility.rs:17-45 | one step of any other transaction changes nothing a transaction sees, neither which versions nor their payloads, if no other id was unregistered when its snapshot was taken |
| `Mvcc.SnapshotStable` | crates/prism-core/src/txn.rs:203-230 | over any run of steps of others, overlapping begins among them, such a transaction sees the same versions with the same payloads and none of the new ones |
| `Mvcc.CommitSurvivesCrash` | crates/prism-core/src/txn.rs:286-312 | in such runs a transaction with data whose commit was recorded is committed after any crash, with every version it made and every stamp it wrote |
| `Mvcc.FreshSnapshotAfterCrash` | crates/prism-core/src/recovery.rs:156-198 | after any crash of any run and recovery, a new snapshot sees a version if and only if its creator has a durable Commit record and its stamper has none |
| `Mvcc.BegunSeesOne` | crates/prism-core/src/recovery.rs:156-198 | nor does a new snapshot over any such log see two versions of one chain |
| `Mvcc.BegunReads` | crates/prism-core/src/store.rs:128-147 | after recovery, a read from the newest version of a chain finds the version of it that survived |
| `Mvcc.ReadFromSame` | crates/prism-core/src/store.rs:128-147 | a read depends only on which versions the snapshot sees |
| `Overlap.StableIff` | crates/prism-core/src/txn.rs:203-230 | in every reachable state, a transaction that registers sees the same versions in all later runs of others if and only if no other id is waiting to be registered |
| `Overlap.LateRowAppears` | crates/prism-core/src/txn.rs:203-230 | if another id is waiting, it can still start, insert and commit, and its row appears to the transaction |
| `Overlap.OverlapShowsTwo` | crates/prism-core/src/store.rs:128-200 | from every state in which one of two waiting ids registers, a run leads to a reader that sees two versions of one chain |
| `Overlap.TwoVersionsSeen` | crates/prism-core/src/store.rs:128-200 | so there is a run from the empty store that ends with such a reader |
| `ReadOnlyWrites.AnyRunInv` | crates/prism-core/src/store.rs:119-200 | every state reachable when transactions of either mode write satisfies what does not depend on the mode |
| `ReadOnlyWrites.ProperIsAny` | crates/prism-core/src/store.rs:119-200 | the runs of `Mvcc` are among these |
| `ReadOnlyWrites.AnyStampedOnce` | crates/prism-core/src/store.rs:311-343 | whoever writes, the xmax of a version is written at most once |
| `ReadOnlyWrites.WritesSurviveIff` | crates/prism-core/src/txn.rs:286-331 | for every run, every transaction past the durability point of its commit and every later crash: what it inserted and what it stamped is there and counts after recovery if and only if it was read-write |
| `ReadOnlyWrites.ForkAfter` | crates/prism-core/src/recovery.rs:156-198 | a committed version replaced by one without a Commit record, and that one by a committed version: a reader after recovery sees the first and the last |
| `ReadOnlyWrites.ReadOnlyWriteForks` | crates/prism-core/src/txn.rs:300-302 | a run, three transactions all committed, the second of them read-only, after which and a crash a reader sees two versions of one row |
| `TxnManager.SnapshotStableIff` | crates/prism-core/src/txn.rs:203-230 | with `begin` in its two steps (id first, active-set lock second), from a new or a recovered manager, a snapshot is stable over all later runs if and only if no other begin was between its steps when it was taken |
| `TxnManager.SnapshotClosedIff` | crates/prism-core/src/txn.rs:203-230 | from a new or a recovered manager, later snapshots that see `t` see everything `t` sees, in all later runs, if and only if no other begin was between its steps when `t` took its snapshot |
| `TxnManager.OverlappingBeginsBreakStability` | crates/prism-core/src/txn.rs:203-230 | a reachable state, with two overlapping begins, in which the snapshot about to be taken is not stable |
| `TxnManager.SettledKept` | crates/prism-core/src/txn.rs:286-331 | an id that is neither pending nor active never changes status and never comes back |
| `TxnManager.Manager.constructor` | crates/prism-core/src/txn.rs:145-153 | a new manager starts at the first user id with nothing active and only the bootstrap transaction committed |
| `TxnManager.Manager.Recovered` | crates/prism-core/src/txn.rs:171-185 | after recovery nothing is active or pending, every id has the status the report gives it, an abort winning over a commit of the same id, and the id counter never drops below the first user id |
| `TxnManager.RecoveredInv` | crates/prism-core/src/txn.rs:171-185 | a manager so recovered is a start like any other when the report names only ids below the next one |
| `Restart.RestartedInv` | crates/prism-core/src/txn.rs:171-185 | the report of a recovery names only such ids |
| `Restart.RestartedFresh` | crates/prism-core/src/txn.rs:171-230 | every snapshot taken in any run of the recovered manager, read at any later point, judges the ids of the old log by the report alone |
| `TxnManager.Manager.AllocId` | crates/prism-core/src/txn.rs:203-206 | the id handed out is the old counter value, and the manager takes the step Alloc of the state machine |
| `TxnManager.Manager.RegisterId` | crates/prism-core/src/txn.rs:207-230 | the snapshot holds the ids active before the own one is added; the manager takes the step Register |
| `TxnManager.Manager.CommitTxn` | crates/prism-core/src/txn.rs:286-312 | the Commit record is appended and durable before the status and the active set change; a read-only transaction writes and flushes nothing |
| `TxnManager.Manager.AbortTxn` | crates/prism-core/src/txn.rs:314-331 | the Abort record of a read-write transaction is appended and durable, then status and active set change |
| `Bank.BankTotal` | crates/prism-core/src/bank.rs:243-269 | in every interleaving of transfers, readers, aborts and crashes, overlapping begins included, the balances a scan by any transaction not itself half-way through a transfer finds add up to the opening total |
| `Bank.BankTotalAfterCrash` | crates/prism-core/src/bank.rs:60-170 | after a crash at any point of any such run, recovery and a fresh reader, the balances add up to the opening total |
| `Bank.Telescope` | crates/prism-core/src/bank.rs:243-269 | along unforked chains the differences between successive balances telescope to the balances of the chain heads |
| `Bank.KeepBankInv` | crates/prism-core/src/bank.rs:243-269 | every step of a bank run, crash included, keeps the invariant that committed transfers net to zero and build only on what was over before they got their ids |
| `Bank.BankOneVisible` | crates/prism-core/src/bank.rs:243-269 | in such runs nobody sees two versions of one account |
| `Bank.OpenedRun` | crates/prism-core/src/bank.rs:80-95 | the bank just opened is a state the store reaches: one transaction inserts the accounts, commits and leaves |
| `Bank.BankIsRun` | crates/prism-core/src/bank.rs:243-269 | every run of the bank is a run of the store |
| `SplitRead.SplitReadDiffers` | crates/prism-core/src/bank.rs:225-234 | for any balances and amount, a reader registered while a transfer's id waits reads one account before the transfer commits and the other after, and is off by the amount |
| `SplitRead.AloneReadsSame` | crates/prism-core/src/bank.rs:225-234 | a reader alone when it registered reads, at any later point and from whatever version is published by then, the balance it saw first |
| `Redo.ReplayLsn` | crates/prism-core/src/recovery.rs:267-335 | a replayed heap page carries the LSN of the last record that touched it |
| `Redo.ResumeHeap` | crates/prism-core/src/recovery.rs:86-155 | starting from the page after any prefix of the log, skipping records by page LSN catches up with full replay |
| `Redo.ResumeIndex` | crates/prism-core/src/recovery.rs:136-155 | for pages written only as full images, the last image newer than the loaded LSN decides the content |
| `Redo.RedoIsReplay` | crates/prism-core/src/recovery.rs:69-199 | from every crash state, one left by an earlier recovery included, LSN-skipping redo of a touched page succeeds and equals full replay from an empty page (index pages up to their LSN field) |
| `Recovery.PageCache.constructor` | crates/prism-core/src/recovery.rs:211-219 | an empty cache holds what no record has changed |
| `Recovery.PageCache.Load` | crates/prism-core/src/recovery.rs:221-242 | a page is loaded once: trusted with its own LSN as base if it is valid on disk, else an empty heap page with base 0 |
| `Recovery.PageCache.RedoRecord` | crates/prism-core/src/recovery.rs:86-155 | redo fails exactly on an image of the wrong size or a record that does not apply; otherwise the cache holds the log so far plus the record, and skipping happens exactly at or below the base LSN |
| `Recovery.PageCache.FlushDirty` | crates/prism-core/src/recovery.rs:256-264 | exactly the changed pages are written back |
| `Recovery.Analysis.AddHeapPage` | crates/prism-core/src/recovery.rs:156-162 | the directory lists, per heap, exactly the pages of its HeapPage records in log order |
| `Recovery.Analysis.Note` | crates/prism-core/src/recovery.rs:80-175 | one record keeps the analysis equal to what the log so far says of commits, aborts, writers, highest id and heaps |
| `Recovery.Pass` | crates/prism-core/src/recovery.rs:80-175 | the loop stops early exactly when redo of the log fails on this disk; otherwise cache and analysis describe the whole log |
| `Recovery.Recover` | crates/prism-core/src/recovery.rs:69-199 | recovery errors exactly when redo fails, writing nothing; otherwise the report is what the log determines and every stale page is redone and all others left alone |
| `Recovery.MaxTxnIs` | crates/prism-core/src/recovery.rs:77-85 | the next transaction id is one more than the largest in the log, or than the bootstrap id: it skips nothing and repeats nothing |
| `Recovery.RecoveryRestoresPages` | crates/prism-core/src/recovery.rs:69-199 | for every log the engine writes and every crash state, recovery raises no error, every touched page equals full replay, and the disk is a crash state again |
| `Recovery.RecoveryRestarts` | crates/prism-core/src/recovery.rs:177-180 | recovery stopped with any subset of its pages written back, or completed, and run again succeeds and gives the same pages |
| `StoreLog.StoreHistoryIsHistory` | crates/prism-core/src/store.rs:290-353 | every log the store writes is one recovery can replay |
| `StoreLog.RowStep` | crates/prism-core/src/store.rs:290-343 | a record places exactly the row it names in an empty place, or stamps exactly the row it names, and leaves every other row as it was |
| `StoreLog.DirectoryComplete` | crates/prism-core/src/store.rs:268-287 | every page a row was ever put on is listed under exactly one heap |
| `StoreLog.ScanRowsOnce` | crates/prism-core/src/store.rs:203-223 | a scan of distinct pages reports rows in the order of the pages and, on a page, of the slots, and none twice |
| `StoreLog.RecoveredScan` | crates/prism-core/src/store.rs:203-223 | after recovery from any crash state a new transaction's scan of any heap returns exactly the rows the log makes live: committed, not superseded or deleted by a committed transaction, none lost, none twice, page by page and slot by slot |
| `Restart.RestartedScan` | crates/prism-core/src/store.rs:203-223 | so does the scan of every transaction that begins after the restart, over what recovery left on disk, at any point of any later run of the manager |
| `StoreVersions.RowsAreVersions` | crates/prism-core/src/store.rs:290-343 | for every log the store writes, the rows on the pages are exactly the versions the log folds to, in birth order, with the same creator, stamp, predecessor and payload |
| `StoreVersions.EndsAreEnds` | crates/prism-core/src/txn.rs:286-331 | both logs name the same transactions as committed and as aborted |
| `StoreVersions.ChainedIff` | crates/prism-core/src/store.rs:152-200 | a store log is one the version machine could have written if and only if each record found the rows chained: only committed or own rows built on, only rows whose own predecessor is stamped replaced, nothing committed unlinked |
| `StoreVersions.RunsAreChained` | crates/prism-core/src/store.rs:152-200 | what a crash leaves of the log of any run of the version machine is so chained |
| `StoreVersions.RecoveredRows` | crates/prism-core/src/store.rs:203-223 | after recovery from any crash state a scan returns a row if and only if a fresh transaction of the recovered version machine sees its version |
| `StoreVersions.RecoveredOnePerChain` | crates/prism-core/src/store.rs:203-223 | and never two rows of one chain |
| `StoreChains.InsertOp` | crates/prism-core/src/store.rs:119-124 | an insert keeps the log chained and every transaction's rows linked |
| `StoreChains.UpdateOp` | crates/prism-core/src/store.rs:152-184 | so does an update, insert and stamp together, with any snapshot as long as nobody counts as committed without a Commit record |
| `StoreChains.DeleteOp` | crates/prism-core/src/store.rs:187-200 | so does a delete |
| `StoreChains.EndOp` | crates/prism-core/src/txn.rs:286-331 | so does the end of a transaction whose rows are linked |
| `StoreChains.RunAll` | crates/prism-core/src/store.rs:119-200 | any sequence of operations of the store, by transactions interleaved in any way, leaves its log chained |
| `StoreChains.RecoveredReady` | crates/prism-core/src/store.rs:104-116 | what recovery leaves is a start for that, with any ids above those of the log |
| `Store.RecordStore.constructor` | crates/prism-core/src/store.rs:69-77 | a new store is valid with an empty log |
| `Store.RecordStore.Recovered` | crates/prism-core/src/store.rs:104-116 | a store opened over recovered pages and the rebuilt directory is valid for the durable log |
| `Store.RecoveredPagesValid` | crates/prism-core/src/store.rs:101-116 | what recovery leaves on disk from any crash state is what such a store needs |
| `Store.RecordStore.EndTxn` | crates/prism-core/src/txn.rs:286-331 | the end record is appended and no row changes |
| `Store.RecordStore.LogInsert` | crates/prism-core/src/store.rs:290-309 | the record and the changed page together add exactly one row and keep pages, log and LSNs in step |
| `Store.RecordStore.LogHeapPage` | crates/prism-core/src/store.rs:268-283 | the page joins the heap in the log, empty, and no row changes |
| `Store.RecordStore.FindRoom` | crates/prism-core/src/store.rs:251-266 | the newest page of the heap with room is found; none only if no page has room |
| `Store.RecordStore.InsertOnNewPage` | crates/prism-core/src/store.rs:268-288 | the row goes to a freshly allocated page of the heap; it fails exactly when the record fits no page, leaving the log as it was |
| `Store.RecordStore.InsertBytes` | crates/prism-core/src/store.rs:251-288 | exactly one row is added, on the newest page of the heap with room or else on a new page; it fails exactly when the record fits no page |
| `Store.RecordStore.InsertRow` | crates/prism-core/src/store.rs:119-124 | as `InsertBytes`, with a header naming the inserter, no stamp and no predecessor |
| `Store.RecordStore.StampXmax` | crates/prism-core/src/store.rs:311-343 | exactly the row named changes, by its xmax alone, and the log grows by that one record with the row's earlier bytes |
| `Store.RecordStore.UpdateRow` | crates/prism-core/src/store.rs:152-184 | succeeds exactly when the row is writable and the new version fits; then the old row is stamped and one new row in the same heap points back to it; otherwise the log is unchanged |
| `Store.RecordStore.DeleteRow` | crates/prism-core/src/store.rs:187-200 | succeeds exactly when the row is writable; then it alone is stamped; otherwise nothing changes |
| `Store.RecordStore.ReadRow` | crates/prism-core/src/store.rs:128-147 | following the back pointers from the given row, the payload of the first row the snapshot sees, none before it on the way being visible; nothing exactly when no row on the way is visible |
| `StoreReads.ReadIsReadFrom` | crates/prism-core/src/store.rs:128-147 | over any log of the store, reading a row gives the payload of the version that the version machine's read finds from that row's version, and nothing when that finds none |
| `StoreReads.NoRowReadsNothing` | crates/prism-core/src/store.rs:133-136 | reading a record id that names no row gives nothing |
| `StoreReads.ReadNewestRow` | crates/prism-core/src/store.rs:128-147 | in every run without overlapping begins, a transaction that reads the newest row of a chain gets the payload of the row of it that it sees |
| `StoreReads.SurvivorsSeen` | crates/prism-core/src/store.rs:139-141 | to a transaction begun after recovery the visible rows are those made by a committed transaction and stamped by none |
| `StoreReads.RecoveredRead` | crates/prism-core/src/store.rs:128-147 | after recovery a read of the newest row of a chain returns a payload if and only if it is that of the row of the chain that survived |
| `Store.WritableIff` | crates/prism-core/src/store.rs:160-169 | a row can be updated or deleted if and only if the snapshot sees its creator and nobody has stamped it |
| `Store.RecordStore.Scan` | crates/prism-core/src/store.rs:203-223 | exactly the visible rows of the heap's pages, each once, with their payloads |
| `Store.RowKept` | crates/prism-core/src/store.rs:311-343 | a row once placed stays, and stamps leave its predecessor alone |
| `Store.RowsFrame` | crates/prism-core/src/store.rs:290-343 | a record changes no row other than the one it names |
| `Store.SlotsBounded` | crates/prism-core/src/record.rs:45-56 | slot numbers stay below what the 6-byte back pointer can hold |
| `RecordHeader.Encode6RoundTripIff` | crates/prism-core/src/record.rs:45-69 | a back pointer survives its 6-byte form if and only if its page is below 2^32 and it is not the all-ones id |
| `RecordHeader.HeaderRoundTrip` | crates/prism-core/src/record.rs:107-138 | every header field comes back from its 24 bytes, and the payload after it; of the flags, the lowest bit says whether there is a previous version and the others are those given |
| `RecordHeader.StampIsXmax` | crates/prism-core/src/store.rs:311-343 | overwriting bytes 8 to 16 of a record replaces its xmax and nothing else |
| `Bytes.LeRoundTrip` | crates/prism-core/src/record.rs:107-138 | n little-endian bytes bring back the value modulo 256^n |
| `SlottedPage.FirstEmpty` | crates/prism-storage/src/page.rs:309-339 | the first empty slot, all before it being occupied |
| `SlottedPage.InsertRefines` | crates/prism-storage/src/page.rs:309-339 | the byte-level insert is the insert of the slot map and keeps the page valid |
| `SlottedPage.EditSlots` | crates/prism-storage/src/page.rs:291-307 | rewriting the bytes of one record changes no other, because live records are apart |
| `SlottedPage.PackedRoom` | crates/prism-storage/src/page.rs:355-376 | compaction always has room above the slot array for the next record |
| `SlottedPage.SlottedPage.constructor` | crates/prism-storage/src/page.rs:205-209 | wrapping a buffer does not change it |
| `SlottedPage.SlottedPage.Init` | crates/prism-storage/src/page.rs:211-224 | an empty valid page with the given type and LSN 0 |
| `SlottedPage.SlottedPage.Get` | crates/prism-storage/src/page.rs:142-153 | the bytes of an occupied slot, none otherwise |
| `SlottedPage.SlottedPage.FindReusable` | crates/prism-storage/src/page.rs:309-339 | the first empty slot, or the slot count |
| `SlottedPage.SlottedPage.Place` | crates/prism-storage/src/page.rs:309-339 | record, slot entry and bookkeeping of an insert are written and nothing else of the record area |
| `SlottedPage.SlottedPage.Insert` | crates/prism-storage/src/page.rs:309-339 | refines insert into a map from slots to bytes: refused exactly when the record does not fit, else put in the first empty slot; LSN and type stay |
| `SlottedPage.SlottedPage.Edit` | crates/prism-storage/src/page.rs:291-307 | an edit of an occupied slot to as many bytes changes that slot alone; otherwise nothing changes |
| `SlottedPage.SlottedPage.Delete` | crates/prism-storage/src/page.rs:341-353 | empties exactly the slot, reporting whether it was occupied |
| `SlottedPage.SlottedPage.CollectLive` | crates/prism-storage/src/page.rs:355-376 | the occupied slots in order with their records |
| `SlottedPage.SlottedPage.RepackAll` | crates/prism-storage/src/page.rs:355-376 | the records are copied one below the other, in slot order, from the end of the page |
| `SlottedPage.SlottedPage.Compact` | crates/prism-storage/src/page.rs:355-376 | every slot keeps its record, the free area ends as high as the live bytes allow, and the page stays valid |
| `WaitGraph.Reachable` | crates/prism-core/src/lock.rs:200-215 | the depth-first search ends and answers true exactly when there is a path |
| `WaitGraph.AcyclicAdd` | crates/prism-core/src/lock.rs:188-192 | a new wait closes a cycle only if the holder already reached the waiter |
| `WaitGraph.NoClosedGroup` | crates/prism-core/src/lock.rs:179-197 | in an acyclic graph no group waits only on its own members |
| `LockManager.StepKeepsInv` | crates/prism-core/src/lock.rs:86-165 | every step of an acquire or a release, interleaved anyhow, keeps the invariant |
| `LockManager.Exclusive` | crates/prism-core/src/lock.rs:86-143 | in no reachable state do two transactions have the same record to release |
| `LockManager.GraphAcyclic` | crates/prism-core/src/lock.rs:120-143 | the recorded graph is acyclic whenever nobody is between detecting a cycle and withdrawing |
| `LockManager.SleepersWaitOnHolder` | crates/prism-core/src/lock.rs:147-165 | no lost wake-up: a sleeper not yet notified waits on a transaction that still has that record to release |
| `LockManager.NoStuckGroup` | crates/prism-core/src/lock.rs:86-165 | in every reachable state, any group of sleepers has a member waiting on somebody outside the group |
| `WaitGraph.ReachesIffWalk` | crates/prism-core/src/lock.rs:200-215 | where everyone waits on one other, reachability is following the waits |
| `LockProgress.RefusedIff` | crates/prism-core/src/lock.rs:120-124 | a blocked transaction is refused if and only if the recorded waits lead from the holder back to it, and otherwise sleeps |
| `LockProgress.EdgeStep` | crates/prism-core/src/lock.rs:86-165 | in every step a recorded wait is on the holder of the record wanted or on a transaction that has begun to release |
| `LockProgress.RefusalIsDeadlock` | crates/prism-core/src/lock.rs:105-124 | no phantom cycle: in every run in which ids are not used again after their release, a refused transaction stands on a ring of transactions inside `acquire`, each after a record that the next one holds |
| `LockProgress.PhantomCycle` | crates/prism-core/src/lock.rs:120-141 | the condition is needed: for any two transactions and records, a run in which an id that asks again after its release is refused for the wait of a transaction that is after a record nobody holds |
| `LockProgress.LeavesLatch` | crates/prism-core/src/lock.rs:86-143 | a thread inside a latch leaves it by its own steps, without a time-out, and no lock is given up meanwhile |
| `LockProgress.BlockedGetsLock` | crates/prism-core/src/lock.rs:120-165 | a transaction blocked on an idle holder is not refused and gets the record in a run of the holder's release and its own steps, only threads inside a latch moving besides, and none timing out or waking by chance |
| `LockProgress.CallerGetsLock` | crates/prism-core/src/lock.rs:86-165 | so does a transaction that has yet to ask |
| `LockManager.WaitForGraph.SetWaitDetect` | crates/prism-core/src/lock.rs:188-192 | the edge replaces the waiter's earlier one, and a cycle is reported exactly when the holder reaches the waiter |
| `LockManager.WaitForGraph.Clear` | crates/prism-core/src/lock.rs:194-196 | only the waiter's edge goes |
| `LockManager.GraphSteps` | crates/prism-core/src/lock.rs:185-197 | the waits of the state machine and the edges of the class change in the same way |
| `BufferPool.BufferPool.constructor` | crates/prism-buffer/src/pool.rs:93-106 | an empty pool over a disk shows the disk |
| `BufferPool.BufferPool.WriteBack` | crates/prism-buffer/src/pool.rs:238-252 | the frame is on disk and the log durable through its LSN |
| `BufferPool.BufferPool.Evict` | crates/prism-buffer/src/pool.rs:238-262 | an unpinned frame is emptied, written back first if dirty, and no page's logical content changes |
| `BufferPool.BufferPool.Sweep` | crates/prism-buffer/src/pool.rs:214-264 | with usage counts at most 3, four rounds suffice: it gives up exactly when every frame is pinned, and changes only usage counts |
| `BufferPool.BufferPool.FindVictim` | crates/prism-buffer/src/pool.rs:214-264 | finds and empties an unpinned frame unless all are pinned; pinned frames are untouched and logical contents unchanged |
| `BufferPool.BufferPool.Install` | crates/prism-buffer/src/pool.rs:178-212 | the page is seated in one frame with one pin, unless all frames are pinned or the page does not exist; logical contents unchanged |
| `BufferPool.BufferPool.PinForAccess` | crates/prism-buffer/src/pool.rs:162-176 | hit or miss, the frame holds the page's last written content with one more pin; a hit changes nothing else but the usage count; it fails exactly on a miss with all frames pinned or no such page |
| `BufferPool.BufferPool.NewPage` | crates/prism-buffer/src/pool.rs:129-144 | a fresh page number reads as zeros and every other page is as before |
| `BufferPool.BufferPool.LatchRead` | crates/prism-buffer/src/pool.rs:109-115 | a reader gets the page's logical content |
| `BufferPool.BufferPool.LatchWrite` | crates/prism-buffer/src/pool.rs:117-126 | a writer excludes readers and changes nothing yet |
| `BufferPool.BufferPool.Write` | crates/prism-buffer/src/pool.rs:387-391 | the page's logical content becomes what was written, every other page as before |
| `BufferPool.BufferPool.SetPageLsn` | crates/prism-buffer/src/pool.rs:370-377 | the LSN bytes are set and the frame's LSN never falls |
| `BufferPool.BufferPool.DropRead` | crates/prism-buffer/src/pool.rs:342-347 | one pin and one reader fewer, contents as before |
| `BufferPool.BufferPool.DropWrite` | crates/prism-buffer/src/pool.rs:393-408 | the page is dirty before its pin is given back |
| `BufferPool.BufferPool.FlushOne` | crates/prism-buffer/src/pool.rs:274-298 | with nothing in between, a dirty page within the bound that nobody writes becomes clean with its content on disk; any other frame is left |
| `BufferPool.BufferPool.Peek` | crates/prism-buffer/src/pool.rs:275-283 | the first look: page and LSN of a dirty frame within the bound |
| `BufferPool.BufferPool.Copy` | crates/prism-buffer/src/pool.rs:284-290 | the second look, whatever the frame has become: skipped under a writer, else its content goes to the page of the first look; afterwards the pool is valid with the same logical contents if and only if `SafeNow` held |
| `BufferPool.BufferPool.Clear` | crates/prism-buffer/src/pool.rs:292-297 | the third look: the frame is marked clean exactly if it holds that page with that LSN and is dirty; the pool stays valid if and only if such a frame is being written or agrees with the disk |
| `BufferPool.CopyIff` | crates/prism-buffer/src/pool.rs:284-290 | the copy keeps the cache transparent and the log ahead of the disk if and only if nobody could read the wrong content from disk and the log is durable through the LSN the content has by then |
| `BufferPool.SameIsSafe` | crates/prism-buffer/src/pool.rs:284-290 | a frame with the same page and LSN as at the first look may be copied |
| `BufferPool.ClearIff` | crates/prism-buffer/src/pool.rs:292-297 | marking clean keeps the pool valid if and only if the frame was not given other content under the same LSN |
| `FlushRace.FlushAheadOfLog` | crates/prism-buffer/src/pool.rs:274-298 | a page rewritten between the first two looks reaches the disk with an LSN the log is not durable through |
| `FlushRace.FlushWrongPage` | crates/prism-buffer/src/pool.rs:274-298 | a frame given to another page between the first two looks makes the first page read as the other |
| `FlushRace.FlushForgetsWrite` | crates/prism-buffer/src/pool.rs:274-298 | a page changed under the same LSN between the last two looks is marked clean without the change being on disk |
| `BufferPool.BufferPool.FlushMatching` | crates/prism-buffer/src/pool.rs:266-300 | with nothing in between, every dirty page within the bound that nobody writes reaches disk, after the log is durable through its LSN; logical contents unchanged |
| `BufferPool.BufferPool.FlushAll` | crates/prism-buffer/src/pool.rs:152-157 | with no writer, nothing stays dirty and the disk equals the logical contents |
| `BufferPool.AllOnDisk` | crates/prism-buffer/src/pool.rs:152-157 | a pool with nothing dirty and no writer shows exactly the disk |
| `WalFrames.LsnParts` | crates/prism-wal/src/lib.rs:36-52 | an LSN gives back its segment and offset, orders by segment then offset, and is never zero past the segment start |
| `WalFrames.FrameFields` | crates/prism-wal/src/record.rs:247-260 | the fields of an assembled frame read back as those of its record, checksum included |
| `WalFrames.ParseFrame` | crates/prism-wal/src/record.rs:275-308 | a frame read from where it was written gives back its record |
| `WalFrames.ParseSame` | crates/prism-wal/src/record.rs:275-308 | a complete record is read from its own bytes alone |
| `Wal.ReplayFrames` | crates/prism-wal/src/wal.rs:234-296 | replay of a segment returns its records and then goes on after them |
| `Wal.ReplayThrough` | crates/prism-wal/src/wal.rs:234-296 | with closed segments ending cleanly, replay is the whole log in order across rotations |
| `Wal.AppendReplaysIff` | crates/prism-wal/src/wal.rs:142-169 | an append without rotation keeps replay equal to the log if and only if the bytes after the new record do not form a complete record |
| `Wal.RotateReplaysIff` | crates/prism-wal/src/wal.rs:61-72 | an append with rotation keeps replay equal to the log if and only if the segment left behind ends cleanly: fewer than 32 bytes left or eight zero bytes there |
| `Wal.TornTailHidesRotation` | crates/prism-wal/src/wal.rs:234-296 | for any record cut off before its checksum: a log reopened over it in which the record appended after a rotation is not replayed |
| `Wal.LogIncreasing` | crates/prism-wal/src/wal.rs:142-169 | the LSNs of the log strictly increase, are never zero and lie below the next one |
| `Wal.ScanActive` | crates/prism-wal/src/wal.rs:331-358 | the scan finds exactly the run of complete records, its end and its last LSN |
| `Wal.ScanCovers` | crates/prism-wal/src/wal.rs:331-358 | any complete records at the start of a segment are among those the scan finds |
| `Wal.CrashKeepsFlushed` | crates/prism-wal/src/wal.rs:88-139 | whatever a crash leaves after the flushed part, the records found on reopening begin with all the flushed ones |
| `Wal.UntouchedIsSound` | crates/prism-wal/src/wal.rs:142-169 | a log never reopened over leftover bytes ends every closed segment cleanly |
| `Wal.UntouchedReplays` | crates/prism-wal/src/wal.rs:209-296 | such a log replays to itself |
| `Wal.FrameIsTorn` | crates/prism-wal/src/record.rs:275-308 | a frame cut off before its checksum reads as torn unless its checksum is 0 |
| `Wal.RotateUntouched` | crates/prism-wal/src/wal.rs:61-72 | rotation of such a log keeps it so |
| `Wal.Wal.Create` | crates/prism-wal/src/wal.rs:88-139 | a new log is empty and its segment all zeros after the header |
| `Wal.Wal.Reopen` | crates/prism-wal/src/wal.rs:88-139 | the complete records of the newest segment are kept, writing goes on right after them, and durable LSN and last LSN agree |
| `Wal.Wal.Append` | crates/prism-wal/src/wal.rs:142-169 | refused exactly when no segment could hold the record; else the log grows by that record with a larger LSN, and replay follows exactly when the bytes ahead are clean |
| `Wal.Wal.AppendHere` | crates/prism-wal/src/wal.rs:142-169 | the record goes at the end of the active segment; nothing flushed changes |
| `Wal.Wal.AppendNext` | crates/prism-wal/src/wal.rs:142-169 | the record opens a new segment, everything before it being synced |
| `Wal.Wal.Rotate` | crates/prism-wal/src/wal.rs:61-72 | a new segment of zeros becomes active at its first record offset |
| `Wal.Wal.FlushThrough` | crates/prism-wal/src/wal.rs:172-193 | afterwards every record up to the requested LSN is on disk, and nothing becomes less durable |
| `Wal.Wal.ReplayAt` | crates/prism-wal/src/wal.rs:234-296 | the iterator's loop yields exactly the records the specification of replay gives |
| `Wal.Wal.ReplayAll` | crates/prism-wal/src/wal.rs:209-225 | of a log that ends cleanly, replay from zero or from the first place is every record, and replay from the LSN of a record is that record and all after it; of any log, what can be read from the segment and offset of the LSN on |
| `Wal.ReplayFromStart` | crates/prism-core/src/recovery.rs:80-82 | replay from zero or from the first place in the log is the whole log |
| `Wal.ReplayFromRecord` | crates/prism-wal/src/wal.rs:209-225 | replay from the LSN of a record is that record and all after it |
| `Entries.FindIs` | crates/prism-index/src/btree.rs:133-148 | lookup in a strictly sorted list finds the one entry of the key |
| `Entries.UpsertIs` | crates/prism-index/src/btree.rs:345-352 | upsert keeps the list sorted and changes the binding of that key alone |
| `Entries.RemoveIs` | crates/prism-index/src/btree.rs:179-200 | removal keeps the list sorted and unbinds that key alone |
| `Entries.SliceIs` | crates/prism-index/src/btree.rs:203-229 | a slice is sorted and holds exactly the entries with start <= key < end |
| `BTreeShape.FlattenWithin` | crates/prism-index/src/btree.rs:232-283 | a well-shaped tree lists its entries in strictly increasing order within its separators |
| `BTreeShape.RouteIsolates` | crates/prism-index/src/btree.rs:56-60 | everything left of the routed child is below the key, everything right of it above |
| `BTreeShape.RouteOperates` | crates/prism-index/src/btree.rs:56-60 | lookup, upsert and removal in the whole tree are those in the routed child |
| `BTreeShape.PivotPlace` | crates/prism-index/src/btree.rs:62-69 | the separator of a split child goes exactly where the child was |
| `BTreeSize.LeafHalvesFit` | crates/prism-index/src/btree.rs:240-255 | with keys of at most 256 bytes both halves of a split leaf fit the page body |
| `BTreeSize.InternalHalvesFit` | crates/prism-index/src/btree.rs:257-281 | with keys of at most 256 bytes both halves of a split internal node fit, the median going up |
| `BTree.BTree.constructor` | crates/prism-index/src/btree.rs:93-115 | an empty tree whose root page is the first page allocated |
| `BTree.BTree.PutNode` | crates/prism-index/src/btree.rs:369-382 | the node is stored exactly when its body fits the page |
| `BTree.BTree.AllocNode` | crates/prism-index/src/btree.rs:298-304 | the node goes to a new page exactly when it fits |
| `BTree.BTree.InsertLeaf` | crates/prism-index/src/btree.rs:239-256 | the leaf, or the two leaves it splits into, hold the upserted entries, linked in order; refused exactly when neither the leaf nor its halves fit, and then as before; pages elsewhere are untouched |
| `BTree.BTree.Absorb` | crates/prism-index/src/btree.rs:257-281 | succeeds exactly when the node with the child's new separator or both its halves fit; then the node, or its two halves, is a well-shaped subtree with the same entries; refused, no page of the tree is written |
| `BTree.BTree.InsertInto` | crates/prism-index/src/btree.rs:232-283 | goes as the sizes of the nodes on the way say; the subtree, split or not, is well shaped, linked, and lists the upserted entries; refused, it is as before or a well-shaped subtree without one run of the upserted entries; the list of leaves stays a list; with short keys it never fails |
| `BTree.BTree.Insert` | crates/prism-index/src/btree.rs:151-176 | succeeds exactly when the nodes on the way to the leaf, by their sizes, can take in what is split off below them, and is then the upsert of the ordered map, across leaf, internal and root splits, with the root page fixed; a refused one leaves a valid tree with the old entries or with the upserted ones less one run; with keys of at most 256 bytes it always succeeds |
| `BTree.BTree.RaiseRoot` | crates/prism-index/src/btree.rs:151-176 | the old root's left half moves to a new page and the root becomes the node above the two halves; refused exactly when the separator does not fit, leaving the left half |
| `BTree.BTree.InsertListed` | crates/prism-index/src/btree.rs:239-256 | the new leaf comes right after the one it was split from in the list of leaves |
| `BTree.BTree.CutLeaf` | crates/prism-index/src/btree.rs:240-255 | both halves of a leaf are written, or refused exactly when one of them does not fit |
| `BTree.BTree.CutNode` | crates/prism-index/src/btree.rs:263-281 | both halves of a node are written, or refused exactly when one of them does not fit |
| `BTree.NotAbsorbed` | crates/prism-index/src/btree.rs:257-281 | a node that cannot take in its child's new separator keeps a well-shaped tree without the entries of the child's right half |
| `BTree.KidRefused` | crates/prism-index/src/btree.rs:257-262 | what was refused below is refused above with the same loss |
| `BTree.RootUnsplit` | crates/prism-index/src/btree.rs:151-176 | a separator too long for a root of its own leaves the root with its left half |
| `BTreeRefusal.CutForgets` | crates/prism-index/src/btree.rs:133-148 | entries less one run bind every key as before except those of the run, which they do not bind |
| `BTreeRefusal.RefusedInsertLosesKey` | crates/prism-index/src/btree.rs:151-176 | an insert that is refused makes search lose a key inserted before |
| `BTreeRefusal.RangeFindsLostKey` | crates/prism-index/src/btree.rs:203-229 | after that insert a range scan returns the key that search does not find |
| `BTreeRefusal.LongKeysOverflowLeaf` | crates/prism-index/src/btree.rs:240-255 | a leaf of keys up to 1024 bytes that fits, and a key of that length whose insert splits it into halves of which one does not fit |
| `BTreeRefusal.LongKeysOverflowNode` | crates/prism-index/src/btree.rs:257-281 | an internal node of keys up to 1024 bytes that fits, and a separator of that length it can take in neither whole nor split |
| `BTree.BTree.Descend` | crates/prism-index/src/btree.rs:133-148 | the walk from the root ends in the leaf where the key belongs |
| `BTree.BTree.Search` | crates/prism-index/src/btree.rs:133-148 | search is lookup in the ordered map |
| `BTree.BTree.Delete` | crates/prism-index/src/btree.rs:179-200 | delete removes the key's entry and no other, and says whether there was one |
| `BTree.BTree.Range` | crates/prism-index/src/btree.rs:203-229 | the walk along the sibling chain ends and collects each leaf's entries with start <= key < end up to the first past the end, and that is exactly the entries in range, in order, as long as no insert has lost entries |
| `BTree.WalkIsSlice` | crates/prism-index/src/btree.rs:203-229 | the walk from the leaf for `start` collects exactly the range while the chain is the list of the tree's leaves |
| `BTreeList.ListSplit` | crates/prism-index/src/btree.rs:240-255 | splitting a leaf keeps the sibling chain a list, one page longer |
| `BTreeList.ListMoved` | crates/prism-index/src/btree.rs:151-176 | so does moving the first leaf when the root is raised |
| `BTree.LeafChain` | crates/prism-index/src/btree.rs:203-229 | the sibling chain from the leftmost leaf is the list of all leaves in key order |
| `BTree.StartLeaf` | crates/prism-index/src/btree.rs:203-229 | a scan starting at the leaf for `start` misses no entry in range |
| `BTree.RangeEnds` | crates/prism-index/src/btree.rs:203-229 | stopping at the first entry past the end loses nothing |
| `BTree.BTree.SiblingIsNotNil` | crates/prism-index/src/btree.rs:384-412 | no leaf of the tree or of the sibling chain has page 0 as its sibling, so the on-disk NIL never hides one |
| `Kv.PayloadRoundTrip` | crates/prism-kv/src/lib.rs:59-79 | the value comes back from the record payload |
| `Kv.PutFresh` | crates/prism-kv/src/lib.rs:142-159 | a put of a key the transaction does not see binds it there; a committed key so re-put becomes one an abort would lose |
| `Kv.PutOver` | crates/prism-kv/src/lib.rs:142-159 | a put over the visible version rebinds the key for this transaction only |
| `Kv.DeleteOver` | crates/prism-kv/src/lib.rs:162-171 | a delete unbinds the key for this transaction only, the index still pointing at it |
| `Kv.CommitOk` | crates/prism-kv/src/lib.rs:121-197 | after commit the next transaction sees exactly what this one saw |
| `Kv.AbortIff` | crates/prism-kv/src/lib.rs:121-197 | after abort the next transaction sees exactly the committed map if and only if no key was lost, and in any case the committed map less the lost keys, in a state from which every later operation is as specified |
| `Kv.LostByAbort` | crates/prism-kv/src/lib.rs:142-171 | put and commit a key; delete it, put it again and abort: the committed value is gone |
| `Kv.KvNamespace.constructor` | crates/prism-kv/src/lib.rs:88-92 | an empty namespace over an empty B+tree |
| `Kv.KvNamespace.GetKey` | crates/prism-kv/src/lib.rs:121-139 | get is lookup in the transaction's view of the map |
| `Kv.KvNamespace.Put` | crates/prism-kv/src/lib.rs:142-159 | a successful put binds the key in that view; key-size, record-size and conflict errors change nothing; if the index refuses, the key is unbound or the keys the index lost are, and with keys of at most 256 bytes it never refuses; keys nobody can write stay so |
| `Kv.KvNamespace.Bind` | crates/prism-kv/src/lib.rs:142-159 | the second half of a put: the version is written and the index pointed at it |
| `Kv.ConflictIff` | crates/prism-kv/src/lib.rs:142-159 | a key the transaction sees reports a conflict if and only if its newest version was made or stamped by a transaction that aborted |
| `Kv.StuckByAbortIff` | crates/prism-core/src/txn.rs:314-331 | an abort makes so exactly the keys whose newest version its transaction made or stamped |
| `Kv.StuckByAbort` | crates/prism-kv/src/lib.rs:142-159 | put and commit a key, put it again and abort: every later put of it, by however many transactions, reports a conflict, and the committed value goes on being read |
| `Kv.KvNamespace.Find` | crates/prism-kv/src/lib.rs:121-125 | where the B+tree says the newest version of the key is |
| `Kv.KvNamespace.Reindex` | crates/prism-kv/src/lib.rs:142-159 | the index points at the new version, or is as it was, or has lost some keys |
| `Kv.KvNamespace.Write` | crates/prism-kv/src/lib.rs:142-159 | the version is written over the one seen or as a new one: the key is bound to it once the index points there, and unbound while it does not |
| `Kv.GrowUnfound` | crates/prism-kv/src/lib.rs:142-159 | a version the index does not lead to changes nothing for anybody |
| `Kv.PutOverUnfound` | crates/prism-kv/src/lib.rs:142-159 | a put over the visible version with the index left behind unbinds the key |
| `Kv.IndexLoses` | crates/prism-kv/src/lib.rs:121-139 | keys the index loses are unbound for this transaction and, if committed, for those after it |
| `Kv.KvNamespace.Delete` | crates/prism-kv/src/lib.rs:162-171 | a successful delete unbinds the key and says whether it was bound; a conflict changes nothing |
| `Kv.KvNamespace.PutIfAbsent` | crates/prism-kv/src/lib.rs:174-181 | leaves a bound key as it is; otherwise fails as a put does, but never for a conflict, and with a short key, a record that fits and a tree of short keys it is done |
| `Kv.KvNamespace.CompareAndSet` | crates/prism-kv/src/lib.rs:183-197 | leaves a key without the expected value as it is; otherwise fails as a put does, for a conflict exactly when the key is stuck, and for a key not stuck, short and in a tree of short keys it is done if the record fits |
| `Kv.KvNamespace.Commit` | crates/prism-core/src/txn.rs:286-312 | the transaction's view becomes the committed map |
| `Kv.KvNamespace.Abort` | crates/prism-core/src/txn.rs:314-331 | always a valid namespace whose committed map is the old one less the lost keys, the same exactly when none was lost |
| `CivilDate.DateRoundTrip` | crates/prism-sql/src/types.rs:137-158 | every valid proleptic Gregorian date, negative years included, comes back from its day number |
| `CivilDate.DayRoundTrip` | crates/prism-sql/src/types.rs:137-158 | every day number converts to a valid date and back to itself |
| `CivilDate.DaysCount` | crates/prism-sql/src/types.rs:137-145 | 1970-01-01 is day 0 and the calendar's next day has the next number |
| `CivilDate.EraFloors` | crates/prism-sql/src/types.rs:137-158 | the truncating division with its correction for negatives is floor division |
| `SqlRow.CoercedRow` | crates/prism-sql/src/types.rs:242-270 | coercion yields values of the column types: an integer becomes the double or the timestamp of that many microseconds, text the timestamp it reads as, and every other value stays as it is |
| `SqlRow.CoercedStores` | crates/prism-sql/src/types.rs:242-270 | a row is coerced if and only if each value is of its column's type, an integer for a double or timestamp, or text that reads as a timestamp |
| `SqlRow.EncodeFixedPart` | crates/prism-sql/src/types.rs:242-278 | bitmap and fixed bytes of the coerced row; it fails exactly at a value that does not fit its column |
| `SqlRow.EncodeText` | crates/prism-sql/src/types.rs:280-292 | 16-bit offsets and text of the text columns |
| `SqlRow.EncodeRow` | crates/prism-sql/src/types.rs:228-302 | succeeds exactly when there is one value per column and each is of the column's type, an integer for a double or timestamp, or text that reads as a timestamp; then gives the encoding of the row of what those columns store |
| `SqlRow.DecodeRow` | crates/prism-sql/src/types.rs:305-357 | the loops compute the decoder specified, errors included |
| `SqlRow.RowRoundTrip` | crates/prism-sql/src/types.rs:228-357 | an encoded row whose text offsets fit 16 bits decodes to itself, for every mix of nulls, fixed and text columns |
| `SqlRow.RowRoundTripIff` | crates/prism-sql/src/types.rs:228-357 | an encoded row decodes to itself if and only if no text column starts at or past byte 65536 |
| `SqlRow.LongTextLost` | crates/prism-sql/src/types.rs:280-292 | a text of 65536 bytes or more before another text column does not come back |
| `DocQuery.Decode` | crates/prism-protocol/src/data.rs:468-494 | decoding any bytes ends: a successful decode leaves strictly fewer bytes |
| `DocQuery.QueryRoundTrip` | crates/prism-protocol/src/data.rs:442-552 | decoding an encoded query followed by any bytes gives back the query and leaves exactly those bytes |
| `DocQuery.WholeRoundTrip` | crates/prism-protocol/src/data.rs:428-440 | a query's bytes decode to it with nothing left over |
| `DocQueryExact.DecodeIff` | crates/prism-protocol/src/data.rs:468-552 | the decoder accepts exactly the encodings of queries, with any non-zero byte for true: unknown tags, short input and text that is not UTF-8 are refused, and what is accepted is what the bytes stand for |
| `DocQueryExact.ValueIff` | crates/prism-protocol/src/data.rs:100-138 | the same of tagged values |
| `DocQueryExact.WholeIff` | crates/prism-protocol/src/data.rs:435-440 | and of whole messages, which must end with the query |
| `DocQuery.Reader.Next` | crates/prism-protocol/src/codec.rs:129-138 | a bounds-checked read; a short one consumes nothing |
| `DocQuery.Reader.NextField` | crates/prism-protocol/src/data.rs:532-534 | a length-prefixed UTF-8 field name as the specification reads it |
| `DocQuery.Reader.NextValue` | crates/prism-protocol/src/data.rs:100-135 | a tagged value as the specification reads it, unknown tags refused |
| `DocQuery.Reader.NextValues` | crates/prism-protocol/src/data.rs:536-543 | a counted list of tagged values as the specification reads it |
| `DocQuery.Reader.NextQuery` | crates/prism-protocol/src/data.rs:468-494 | the recursive reader computes the specified decoder, errors included |
| `DocQuery.Reader.NextQueries` | crates/prism-protocol/src/data.rs:545-552 | a counted list of queries as the specification reads it |
| `DocQuery.FromBytes` | crates/prism-protocol/src/data.rs:435-440 | whole-input decoding refuses leftover bytes |
| `DocQuery.Writer.PutValue` | crates/prism-protocol/src/data.rs:126-129 | tag byte, then the value; the specified encoding, failing exactly when a length does not fit its prefix |
| `DocQuery.Writer.PutBody` | crates/prism-protocol/src/data.rs:73-98 | the value without its tag, field by field: length, subtype and bytes one after the other |
| `DocQuery.Writer.PutValues` | crates/prism-protocol/src/data.rs:503-515 | appends a counted list of values |
| `DocQuery.Writer.PutQuery` | crates/prism-protocol/src/data.rs:442-530 | appends the specified encoding of a query, failing exactly when a length does not fit its prefix |
| `DocQuery.Writer.PutQueries` | crates/prism-protocol/src/data.rs:517-530 | appends a counted list of queries |
| `Recovery.Analysis.constructor` | crates/prism-core/src/recovery.rs:70-78 | an empty analysis describes the empty log |
| `Recovery.PageCache.SkipRecord` | crates/prism-core/src/recovery.rs:163-174 | a record without page redo leaves the cache right for the longer log |
| `Recovery.PageCache.Flushed` | crates/prism-core/src/recovery.rs:177-180 | writing back the changed pages of a cache that holds the log leaves the disk redone |
| `Store.RecordStore.AddPage` | crates/prism-core/src/store.rs:268-288 | the new page joins the heap and holds exactly the new row |
| `Store.RecordStore.ScanPage` | crates/prism-core/src/store.rs:206-221 | the visible rows of one page in slot order |
| `Wal.Wal.WriteFrame` | crates/prism-wal/src/wal.rs:160-166 | the frame's bytes are written at the offset, which moves past them |
| `BTree.TakeFrom` | crates/prism-index/src/btree.rs:212-226 | one leaf's entries in range are added, stopping at the first past the end |
| `SqlRow.Finish` | crates/prism-sql/src/types.rs:277-302 | bitmap, fixed bytes, offsets and text put together are the encoding of the row |
| `SqlRow.DecodeFixedPart` | crates/prism-sql/src/types.rs:313-330 | the fixed columns as the specification reads them, in order, nulls skipped |
| `SqlRow.DecodeOffsets` | crates/prism-sql/src/types.rs:332-343 | the offset array as the specification reads it, refused when cut short |
| `SqlRow.DecodeText` | crates/prism-sql/src/types.rs:344-356 | the text columns between their offsets, refused when out of bounds or not UTF-8 |
| `BufferPool.BufferPool.FlushLog` | crates/prism-wal/src/wal.rs:172-193 | afterwards everything appended is durable, unless the log already was durable through the LSN asked for |
| `BufferPool.BufferPool.Forget` | crates/prism-buffer/src/pool.rs:253-256 | the page leaves the table and the dirty set |
| `BufferPool.BufferPool.AppendLog` | crates/prism-wal/src/wal.rs:142-168 | the log has one more LSN, and no page changes |
| `SlottedPage.SlottedPage.Write16` | crates/prism-storage/src/page.rs:96-99 | two bytes hold the value and no other byte changes |
| `SlottedPage.SlottedPage.WriteBytes` | crates/prism-storage/src/page.rs:323-324 | exactly the given range is overwritten |
| `SlottedPage.SlottedPage.Read16` | crates/prism-storage/src/page.rs:91-94 | the value of two little-endian bytes |
| `SlottedPage.SlottedPage.ReadEntry` | crates/prism-storage/src/page.rs:130-140 | the slot entry as stored |
| `SlottedPage.SlottedPage.SetSlot` | crates/prism-storage/src/page.rs:275-281 | one slot entry changes and nothing else |
| `SlottedPage.SlottedPage.SetFreeEnd` | crates/prism-storage/src/page.rs:267-269 | the low end of the record area changes and nothing else |
| `SlottedPage.SlottedPage.GrowArray` | crates/prism-storage/src/page.rs:326-333 | slot count and array end change together and nothing else |
| `SlottedPage.SlottedPage.ReadLive` | crates/prism-storage/src/page.rs:355-376 | an occupied slot's entry and bytes, none for an empty one |
| `SlottedPage.SlottedPage.Repack` | crates/prism-storage/src/page.rs:355-376 | one record is copied just below those already packed, its slot following |
| `DocQuery.Reader.constructor` | crates/prism-protocol/src/codec.rs:115-118 | a reader at the start of its input |
| `DocQuery.Reader.NextCount` | crates/prism-protocol/src/data.rs:536-538 | a 32-bit count as the specification reads it |
| `DocQuery.Reader.NextInt` | crates/prism-protocol/src/codec.rs:152-162 | a fixed-width two's-complement integer as the specification reads it |
| `DocQuery.Writer.constructor` | crates/prism-protocol/src/codec.rs:18-21 | an empty writer |
| `DocQuery.Writer.Put` | crates/prism-protocol/src/codec.rs:55-58 | appends the bytes |
| `DocQuery.Writer.PutField` | crates/prism-protocol/src/codec.rs:65-74 | appends a length-prefixed field name, failing exactly when its length does not fit |
| `DocQuery.Writer.PutCount` | crates/prism-protocol/src/data.rs:503-512 | appends a count, failing exactly when it does not fit |
| `WaitGraph.PushAll` | crates/prism-core/src/lock.rs:210-212 | the stack gains exactly the successors |
| `LockManager.RunKeepsInv` | crates/prism-core/src/lock.rs:86-165 | every reachable state satisfies the lock manager's invariant |
| `LockManager.WaitForGraph.constructor` | crates/prism-core/src/lock.rs:179-183 | an empty graph |

## Left out

- Store.RecordStore.UpdateRow: assumes pages are numbered below 2^32, because the 6-byte back pointer keeps no more of the page number (see `RecordHeader.Encode6RoundTripIff`).
- SqlRow.RowRoundTripIff: leaves out schemas whose bitmap, fixed columns and offset array alone fill 64 KiB; there even the first offset wraps, and whether the bytes at the wrong place happen to be equal has no simpler form.
- BTree.BTree.InsertInto: does not specify the right-sibling pointers of internal nodes, which no operation reads, and takes `level` as unbounded.
- BufferPool.BufferPool.Write: bytes written through a guard do not raise the page's LSN field; only `SetPageLsn` does, as in every caller.
- BufferPool.BufferPool.Copy: flushing the log, writing the page and holding the read latch meanwhile are one step.
- BufferPool.BufferPool.FlushMatching: with no other operation between its looks; `Peek`, `Copy` and `Clear` are the looks one by one.
- BufferPool.BufferPool.Sweep: without frames that are unpinned but momentarily latched.
- Kv.KvNamespace.Put: one transaction at a time.
- Bank.BankTotal: a scan is one step; `SplitRead` has a reader that goes from account to account.
- StoreChains.RunAll: whole operations one after another; `StoreVersions.RunsAreChained` is about operations that interleave.
- Wal.Wal.Reopen: a newest segment without records gives durable and last LSN 0, as the code does; nothing is claimed of earlier LSNs then.
- Wal.Wal.Append: fewer than 2^32 segments, the width of the segment number in an LSN.
- CivilDate.DayRoundTrip: on unbounded integers; 64-bit overflow at dates beyond the reach of microsecond timestamps is not modelled.
- `Snapshot.xmin`, which no visibility decision reads.
- Record ids that name index pages, and heap and index records on one page.
- The `prev_lsn` chain of log records, checkpoint and compensation records: recovery ignores them.
- The byte codec of log record bodies and of B+tree nodes; their frames and sizes are modelled.
- CRC arithmetic, file and directory operations, I/O errors, and lock timeouts as durations (a timeout is a step that may happen).
- The `Message` and packet codec, which repeats the cases of the query codec.
- `KvNamespace::entries`, which scans the heap and decodes every visible record into its key and value, is not modelled.
- SQL parsing and execution, the document engine, catalog reload, and text forms of timestamps.
- The server, sessions, authentication, shell, tools and client libraries.
