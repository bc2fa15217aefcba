# Olric, modelled in Dafny

Olric is a distributed in-memory map. Keys hash into partitions; each partition has a list of owner hosts, the last of
which is the primary. Each host stores its share of a map in a log-structured storage, and may mirror it to disk. This
project models that machinery and proves what it promises.

- **Storage** (`Bytes`, `Entry`, `TableSpec`, `Table`, `TableRuns`, `StorageSpec`, `PutSpec`, `MergeSpec`, `RangeSpec`,
  `Storage`, `StorageRuns`, `Overlap`, `Transfer`, `Eviction`). `Table` is a class over a byte array, `Storage`
  a class over a stack of tables. The `*Spec` modules say what they mean: a table is a map from hkeys to entry bytes plus
  its counters, a storage is the union of its tables in which newer ones shadow older ones. Methods are proved against
  these functions, and the promises are lemmas about the functions.
- **Locker and atomic operations** (`Locker`, `Atomic`): an interleaving state machine whose steps are single shared
  accesses, and Incr, Decr and GetPut on top of it.
- **Owner lists and the partition protocol** (`Routing`, `Cluster`, `ClusterRefinement`, `ClusterCount`): how owner lists
  are rebuilt, what each client operation, move and clean-up does to the hosts of a partition, and that the whole behaves
  like one map and one lock table.
- **Snapshots** (`Snapshot`, `Loader`, `Restart`): clients and the sync worker as an interleaving state machine in which reads
  and writes of the disk may fail, the loader, and what a restart brings back.
- **Wire protocol** (`Wire`): encoder and decoder of messages over a byte stream.

## Findings

The model follows the code. Where a natural promise does not hold of it, the exact condition is proved:

- A value of 4 GiB or more is stored with its length cut to 32 bits: an entry decodes to what was put if and only if the
  value is shorter (`Entry.DecodeEncode`).
- A key may be live in two tables after an overwriting put that overflows (`Overlap.OverflowingPutOverlaps`). Then a delete
  uncovers the older copy and a merge lets it win, shown from two puts into a new storage (`Overlap.DeleteUncoversOlder`,
  `Overlap.MergeRevivesOlder`). Conditions: `StorageSpec.DeleteExact`, `StorageSpec.LenExact`, `MergeSpec.MovedExact`,
  `MergeSpec.MergeExact`, and `StorageRuns.ClearExact`, which a caller can test before the put. Other keys are not harmed
  (`StorageRuns.KeyRefines`).
- The retry loop of a put ends if and only if the entry fits the last table or the one that would follow it; otherwise
  every further table is of minimum size and too small (`PutSpec.RetryExact`, `PutSpec.NeverFits`).
- A map moved to a primary that does not have it is not counted there, so the next owner list rebuild may take that primary
  for empty and drop it with the keys (`ClusterCount.UncountedMoveLosesKeys`). `ClusterCount.HonestExact` says exactly when a
  rebuild drops only hosts that hold nothing, `ClusterCount.MoveThenRebuildExact` exactly when moved keys are lost, and
  `ClusterCount.RunDrift` and `ClusterCount.EmptinessExact` how far the counters are off and when that matters.
- The clean-up of empty maps does not look at locks; a lock on such a map vanishes (`ClusterRefinement.StaleLosesLock`, from
  the start in `ClusterRefinement.StaleLosesLockReachable`), and exactly then (`ClusterRefinement.StaleExact`).
- A failed read of the key set or a failed flush loses drained operations, and a merged-in key or a deletion that reports an
  error is not logged at all. For every reachable state and every key not lost before, `Snapshot.FailedViewExact` and
  `Snapshot.FailedFlushExact` say when a key that is neither logged again nor in progress is then wrong on disk, and
  `Snapshot.UnloggedExact` says it of a settled key. Runs from the start: `Snapshot.FailedViewLosesPut`,
  `Snapshot.FailedFlushLosesPut` and `Snapshot.MergeInLosesKey`.
- A restart may fail for three reasons: the map was registered and never synced; an entry is a byte short of 1 MiB or larger, so
  that its raw form, one byte longer, never fits the new storage if it is loaded first (`Restart.FullTableNeverReloads`); or
  the key set names a key that is not on disk, because a flush deleted it without writing the key set
  (`Restart.MissingKeyNeverReloads`, and exactly then: `Snapshot.KeysMatchStep`, `Snapshot.KeylessFlushExact`). At any point of
  any run, with memory at hand, a restart loads in every key order if and only if none of the three is the case
  (`Restart.ReloadExact`). From a quiescent state without lost keys it then yields the map (`Restart.RestartExact`).
- A message arrives as sent if and only if it is a request or response, its lengths fit the header and the value limit, and it
  has either no extra and no leftover extra length, or, on a request, an extra its operation decodes (`Wire.RoundTripExact`).

## Conventions

- `budget: nat` on the put operations is the number of further tables memory can be had for; `canAllocate` is the same for
  one table. A put that would loop for ever fails for every budget.
- `hkeys` are 64-bit integers; keys, names and values are byte strings or strings. Counters that cannot overflow in
  practice are unbounded. The `allocated` counter of a table is called `capacity`.
- The order in which Go walks a map is arbitrary; the methods pick keys with `:|`.
- Serialization of the exported storage, of owner lists and of the key set is taken as the identity on the record.
- The garbage ratio is compared over real numbers.
- Where comments and code differ, the model follows the code: the header has 12 bytes (protocol.go says 0 to 10), and an eviction
  round tests 19 keys and is repeated from 5 expired ones on (dmap_eviction.go says 20, and more than a quarter).
- Hosts, values and clocks are parameters; the state of several hosts is one value, and a client operation on the cluster is
  one step.

## Model

| member | source | states |
|---|---|---|
| Entry.DecodeEncode | internal/storage/table.go:93-136 | decoding an encoded entry gives it back with the value cut to 32 bits of length; equal to the original, and a whole entry, iff the value is shorter than 4 GiB |
| Entry.EncodeDecode | internal/storage/storage.go:377-397 | encoding what was decoded from a whole entry gives its bytes back |
| Entry.Extend | internal/storage/table.go:157-160 | bytes after an entry, like the zero byte of the raw form, change neither its extent nor its decoded data |
| Entry.EncodeLayout | internal/storage/table.go:93-136 | where key length, key, TTL, value length and value are, numbers with the most significant byte first |
| Entry.ExpiredExact | olric.go:608-614 | a key has expired iff its TTL is not zero and the clock, in nanoseconds, has reached it, in milliseconds |
| TableSpec.AppendKeepsLayout | internal/storage/table.go:80-91 | appending keeps every live entry inside the used area, disjoint from the others and unchanged, and repoints one key |
| TableSpec.AppendedSound | internal/storage/table.go:80-91 | a raw append keeps the byte accounts; overwriting leaks the old entry, a longer raw leaks its tail, nothing else |
| TableSpec.PutSound | internal/storage/table.go:96-136 | a put keeps the byte accounts, leaks only the part of an oversized value, and makes the key decode to the stored value |
| TableSpec.DeletedSound | internal/storage/table.go:188-215 | a delete turns exactly the entry's bytes into garbage |
| TableRuns.StepSound | internal/storage/table.go:80-215 | every operation keeps the accounts and changes the entry of no other live key |
| TableRuns.RunSound | internal/storage/table.go:80-215 | after any run from an empty table: offset below the allocated size, in use plus garbage is the offset, in use covers the live entries, and equals them if there were no raw puts and no values of 4 GiB or more |
| Tables.Table.constructor | internal/storage/table.go:49-62 | a new table is empty and at least 1 MiB large |
| Tables.Table.PutRaw | internal/storage/table.go:80-91 | refuses when the strict room test fails, else appends the bytes and points the key at their entry, keeping the layout |
| Tables.Table.Put | internal/storage/table.go:96-136 | refuses long keys and missing room without effect, else deletes the old entry and appends the encoding, keeping the layout |
| Tables.Table.GetRaw | internal/storage/table.go:138-161 | the key's entry bytes and one zero byte, or the hint to try the previous table |
| Tables.Table.Get | internal/storage/table.go:163-186 | the decoded entry of the key, or the hint to try the previous table |
| Tables.Table.Delete | internal/storage/table.go:188-215 | removes the key and moves exactly its bytes from in use to garbage |
| Tables.Table.Restore | internal/storage/storage.go:311-316 | filling a table from a record that describes a sound table gives that table |
| PutSpec.NeverFits | internal/storage/storage.go:145-165 | once an empty table was too small, every further one has the minimum size and is too small |
| PutSpec.RetryExact | internal/storage/storage.go:145-165 | the retry loop finds room iff the entry fits the last table or, memory provided, the one after it, and then pushes at most one |
| PutSpec.PutSucceeds | internal/storage/storage.go:136-166 | exactly when a put succeeds, fails for its key or runs out of memory, and how many tables it pushes |
| PutSpec.PutRefines | internal/storage/storage.go:136-166 | a successful put is map update whatever the overlap of tables, and keeps disjoint tables disjoint iff no table but the written one holds the key |
| PutSpec.PutFails | internal/storage/storage.go:136-166 | a failed put leaves map, length and disjointness as they were |
| PutSpec.PutRawRefines | internal/storage/storage.go:104-134 | the same for raw puts |
| StorageSpec.LenExact | internal/storage/storage.go:320-330 | the length never counts too few and is the size of the map iff the tables are disjoint |
| StorageSpec.DeleteOthers | internal/storage/storage.go:220-237 | a delete changes no other key, however tables overlap |
| StorageSpec.DeleteExact | internal/storage/storage.go:220-237 | a delete removes the key iff at most one table holds it |
| StorageSpec.DeleteRefines | internal/storage/storage.go:220-237 | from disjoint tables a delete is map removal, keeps disjointness and lowers the length by one if the key was there |
| StorageSpec.DeletePushes | internal/storage/storage.go:239-263 | a successor table is pushed iff a lone table has two fifths of garbage, no merge runs and memory can be had; its size is twice the bytes in use, at most the old size and at least 1 MiB; a merge is started iff one is pushed; the delete fails iff one is due and memory cannot be had |
| StorageSpec.DeleteOutcomeRefines | internal/storage/storage.go:220-264 | the whole delete is map removal from disjoint tables in every outcome |
| StorageRuns.ClearExact | internal/storage/storage.go:145-165 | a successful put leaves its key in one table iff no older table holds the key, none at all if it must overflow; disjoint tables stay disjoint under the same condition |
| StorageRuns.KeyRefines | internal/storage/storage.go:136-264 | over every run of puts, deletes and merge chunks a key whose own puts are clear in that sense stays in one table at most and means what a plain map of the same operations has, however other keys are spread |
| StorageRuns.RunRefines | internal/storage/storage.go:136-264 | if that holds of all keys, tables stay disjoint and the storage means that plain map |
| RangeSpec.RangeRefines | internal/storage/storage.go:353-375 | over disjoint tables ranging shows no key twice and only current values, and all of the map if never refused |
| RangeSpec.ScanEach | internal/storage/storage.go:365-374 | a refusal ends the scan of its table only: something of every table with keys is seen |
| RangeSpec.ScanOrder | internal/storage/storage.go:365-374 | newer tables are scanned before older ones |
| Storages.Storage.constructor | internal/storage/storage.go:58-71 | a new storage has one empty table |
| Storages.Storage.Put | internal/storage/storage.go:136-166 | result, tables and merging flag are those of the put specification for every memory budget |
| Storages.Storage.PutRaw | internal/storage/storage.go:104-134 | the same for raw puts |
| Storages.Storage.GetRaw | internal/storage/storage.go:168-192 | the raw form of the key's entry in the union of the tables, or not found |
| Storages.Storage.Get | internal/storage/storage.go:194-218 | the decoded entry of the key in the union of the tables, or not found |
| Storages.Storage.Check | internal/storage/storage.go:332-351 | true iff the key is in the union of the tables |
| Storages.Storage.Length | internal/storage/storage.go:320-330 | the sum of the live keys of the tables |
| Storages.Storage.Range | internal/storage/storage.go:353-375 | visits are scans of the tables, newest first, in any key order, each cut where the callback refuses |
| Storages.Storage.Delete | internal/storage/storage.go:220-264 | deletes the newest copy and pushes a successor table by the garbage rule |
| Storages.Storage.ChunkedMergeTables | internal/storage/merge.go:45-98 | fitting moves to the newest table, oldest table first and in any key order, ended by the 1000-key limit, by an entry that does not fit (then a doubled table), or with one table left |
| Storages.Storage.PruneEmpty | internal/storage/merge.go:84-97 | keeps the newest table and, after it, the old ones that still hold keys |
| MergeSpec.PrunedExact | internal/storage/merge.go:84-97 | the newest table comes first and exactly the old ones that hold keys follow |
| Storages.Storage.MergeTables | internal/storage/merge.go:23-43 | repeated chunks end with a single table and the same keys, and from disjoint tables with the same map and length |
| MergeSpec.MovedExact | internal/storage/merge.go:54-75 | moving a key never adds or drops one, and keeps the map iff the moved copy is the visible one |
| MergeSpec.ApplyPreserves | internal/storage/merge.go:51-82 | from disjoint tables any list of moves keeps disjointness, map and length |
| MergeSpec.MergePreserves | internal/storage/merge.go:45-98 | from disjoint tables every outcome of a chunk keeps disjointness, map and length |
| MergeSpec.MergeKeepsKeys | internal/storage/merge.go:45-98 | whatever the overlap, a chunk keeps the set of keys |
| MergeSpec.MergeSingle | internal/storage/merge.go:45-98 | a key that one table at most holds keeps its value and stays in one table through every chunk, whatever other keys do |
| MergeSpec.MergeExact | internal/storage/merge.go:54-75 | whatever the overlap, a finished chunk leaves the copy of the newest old table that had the key, else the newest table's own; it keeps the map iff the newest table and the old ones agree on shared keys |
| MergeSpec.OverflowProgress | internal/storage/merge.go:59-68 | an entry that does not fit shows that not everything fits, and the doubled table narrows the shortage |
| MergeSpec.MergeProgress | internal/storage/merge.go:45-98 | a chunk is done iff one table is left, and an unfinished one makes progress in a well-founded measure |
| Overlap.MergeRevivesOlder | internal/storage/merge.go:45-98 | two puts into a new storage, the second overflowing, and one chunk of merging that moves a fitting key and is done: the older value is back |
| Overlap.DeleteUncoversOlder | internal/storage/storage.go:229-237 | after the same two puts the length counts the key twice, and a delete brings the older value back |
| Overlap.OverflowingPutOverlaps | internal/storage/storage.go:148-161 | an overwriting put that overflows from a single table always leaves the key in two tables |
| Transfer.Export | internal/storage/storage.go:275-296 | refuses iff there is not exactly one table, else a record that describes it, one byte longer than the used area |
| Transfer.Import | internal/storage/storage.go:298-318 | a storage of one table with the record's index and counters, valid and with the described view if the record describes a sound table |
| Transfer.Ship | fsck.go:70-137 | an unfragmented storage arrives with the same view, so every lookup answers as before |
| Transfer.MergeInto | fsck.go:139-153 | the destination ends up as the arrived map overridden by its own, keeps disjointness; on failure some keys were not reached, and the cause is missing memory or an entry of 1 MiB or more |
| Eviction.Janitor | dmap_eviction.go:72-91 | a round tests 19 keys or all if fewer, removes exactly the expired ones among them, counts those whose deletion reported no error (all of them when memory can be had), and repeats iff it counted 5 or more |
| Eviction.ScanDMapForEviction | dmap_eviction.go:61-105 | ends, after a round that counted fewer than 5; removes only expired keys and, when memory can be had, reports their exact number (never more); every repeated round counted at least 5; a map of fewer than 20 keys is left without expired ones |
| Loader.LoadFromBadger | internal/snapshot/loader.go:73-96 | result and tables are those of raw puts into a new storage in some order of the key set, up to the first error |
| Loader.LoadRefines | internal/snapshot/loader.go:73-96 | in every order and with any background merging between keys: tables stay disjoint, a load without error holds exactly the entries read, a missing-key error means one is missing, any other no memory or an entry whose raw form is 1 MiB or more |
| Loader.LoadExact | internal/snapshot/loader.go:80-92 | with memory at hand and any background merging a key set loads in every order iff every key is there with a raw form below 1 MiB |
| Loader.LoadSaved | internal/snapshot/loader.go:86-88 | loading the raw forms the sync worker saves gives the saved contents back |
| Locker.StepInv | locker.go:107-158 | every step of lock and unlock keeps the invariant tying places, counters, mutexes and entries |
| Locker.LockerSafety | locker.go:107-158 | over every interleaving in which holders unlock: no name is held twice, waiters are the threads between counting and uncounting themselves, unlock neither fails nor hits a free mutex, every entry is in use and none is left when all are idle |
| Locker.RemovedUnused | locker.go:143-146 | an entry that disappears is not waited for, held or known by any other thread |
| Locker.NoDeadlock | locker.go:107-158 | as long as some thread is not idle, some thread can take a step |
| Locker.StepAdvances | locker.go:107-158 | every step but a new lock call brings its thread nearer to being idle and leaves the others where they are |
| Locker.RunBounded | locker.go:107-158 | without new lock calls a run is no longer than what its threads have left |
| Locker.CanFinish | locker.go:107-158 | every reachable state has a run without new lock calls to one in which all threads are idle |
| Locker.LockRun | locker.go:107-131 | with nobody on the name and the main mutex free, the four steps of lock end with the name held |
| Atomic.Linearizable | dmap_atomic.go:25-111 | every interleaving is a sequential history in the order of the writes: each GetPut stores its value and returns the one before, each Incr or Decr stores and returns the sum or fails on a value that is no integer; when all are idle the history has exactly the operations begun |
| Atomic.WriteExact | dmap_atomic.go:37-110 | a write has that effect on the store of its moment, not of its read |
| Atomic.CounterTotal | dmap_atomic.go:51-76 | increments and decrements never fail on a number, each returns the running total, and the last one is what is stored: exactly if it fits 64 bits, else modulo 2^64 |
| Atomic.ExchangeConserves | dmap_atomic.go:89-111 | returned values plus the final one are the initial one plus the written ones |
| Atomic.ExchangeChain | dmap_atomic.go:89-111 | each call returns what the one before wrote, the first the initial value, and what the last wrote is left |
| Atomic.CounterConserved | dmap_atomic.go:25-77 | with any number of threads in any interleaving the final counter is the initial one plus all increments minus all decrements, and each call returned the total so far, exactly or modulo 2^64 as above |
| Atomic.ExchangeConserved | dmap_atomic.go:89-111 | the same for exchanged values: conserved, and each call returned what the one before it wrote |
| Atomic.CanFinish | dmap_atomic.go:25-111 | every reachable state has a run without new calls to one in which all calls have returned |
| Atomic.CallCompletes | dmap_atomic.go:25-111 | a new call completes, and the history then has it besides all begun before |
| Routing.CalcMaxBackupCount | routing.go:36-48 | the least of 3, the configured count and the number of other members |
| Routing.FindMember | discovery.go:146-154 | the first member of that name |
| Routing.LiveExact | routing.go:184-194 | a host is live iff it is itself, name and birth date, the first member of its name |
| Routing.DistributePrimaryCopies | routing.go:150-219 | the list given by moving the chosen owner to the end and pruning, or the panic on an empty list |
| Routing.PrimariesExact | routing.go:150-219 | from a duplicate-free list and a live chosen owner: the other live owners not reported empty in their order, then the chosen one |
| Routing.PrimariesPanic | routing.go:182-198 | the rebuild panics iff there was an owner and neither the owners nor the chosen one are live |
| Routing.PrimariesSound | routing.go:150-219 | the list is duplicate-free, of live hosts that are members, ends in the chosen owner, and has exactly the hosts it should |
| Routing.DistributeBackups | routing.go:67-148 | the list given by moving the chosen backups to the end and pruning, or the panic on too few |
| Routing.BackupsExact | routing.go:67-148 | with distinct live chosen backups: the staying ones in their order, then the chosen ones in theirs |
| Routing.BackupsSound | fsck.go:186-200 | the list is duplicate-free and of members, and splitting it at the same count separates stale backups from the chosen ones |
| Routing.BackupsPanic | routing.go:67-148 | the rebuild panics iff there were backups and fewer of them and the chosen ones are live than were chosen |
| Cluster.PutKeyVal | dmap_put.go:27-97 | writes at the primary and deletes the key on every previous owner |
| Cluster.DelKeyVal | dmap_delete.go:87-141 | deletes the key on the previous owners and at the primary |
| Cluster.GetKeyVal | dmap_get.go:34-90 | the primary's value unless expired, else the last previous owner's unexpired one; creates the map at the primary |
| Cluster.FindLockKey | dmap_lock.go:24-60 | asks the other owners from the end of the list, creating the map there, and falls back to the asking host |
| ClusterRefinement.MoveMaps | fsck.go:58-154 | a move goes to another host, leaves nothing behind, and gives the primary what it did not have |
| ClusterRefinement.AnswerFirst | dmap_get.go:34-69 | the primary's own copy decides, expired or not; without one the last previous owner with an unexpired copy answers with its value |
| ClusterRefinement.AnswerExact | dmap_get.go:34-90 | a read returns the value the unpartitioned map holds if its TTL is zero or not yet reached, and nothing otherwise |
| ClusterRefinement.ReadsLikeOneMap | routing.go:150-219 | over every run of client operations, honest owner list rebuilds, moves and clean-ups a read at the primary returns exactly that, and a key is on one listed owner at most |
| ClusterRefinement.LockTarget | dmap_lock.go:82-118 | locking adds to the one entry there is, or makes one at the primary |
| ClusterRefinement.UnlockTarget | dmap_lock.go:148-166 | unlocking reaches the one entry there is, and reports a missing lock iff there is none |
| ClusterRefinement.LocksLikeOneTable | dmap_lock.go:24-166 | over every such run that cleans no locked map away, lock entries behave like one lock table |
| ClusterRefinement.StaleLosesLock | dmap_delete.go:43-75 | cleaning a locked map away makes its holder's unlock report a missing lock |
| ClusterRefinement.StaleExact | dmap_delete.go:43-75 | cleaning a map away keeps the lock table right iff nothing in the map is locked |
| ClusterRefinement.StaleLosesLockReachable | dmap_delete.go:43-75 | a run from the start that locks a key of a map without entries, cleans the map away and leaves the holder with a missing lock |
| ClusterCount.StepDrift | fsck.go:122-137 | of the protocol's steps only a move into a host without the map and a destroy change the difference between maps held and counted |
| ClusterCount.RestoreDrift | olric.go:262-276 | restoring a map from a snapshot lowers the difference by one iff the host already had a map of that name |
| ClusterCount.RestoreMaps | olric.go:268-273 | the restored map holds exactly the snapshot's data, and no other map changes |
| ClusterCount.TouchExact | olric.go:504-536 | looking a map up creates and counts it iff it was not there, and changes nothing else |
| ClusterCount.StepHas | dmap_delete.go:87-141 | after a put, delete, get or lock the primary has the map, after a delete every owner |
| ClusterCount.FindLockHas | dmap_lock.go:24-60 | a lock search returns the last other owner that has the lock, else the asking host, and creates the map exactly on the owners asked |
| ClusterCount.RunDrift | olric.go:504-536 | over every history of steps and restored maps, from any state, that difference moves by what the single events add up to |
| ClusterCount.EmptinessExact | routing.go:330-337 | from any state: the emptiness test is exact iff initial and gathered difference cancel out (host empty) or do not equal the number of maps held (host not empty) |
| ClusterCount.HonestExact | routing.go:182-218 | a rebuild drops only hosts that hold nothing iff every owner but the chosen one that is uncounted or not live holds nothing |
| ClusterCount.HonestWhenCounted | routing.go:196-218 | where counters are exact it does so iff every owner but the chosen one that is not live holds nothing |
| ClusterCount.MoveThenRebuildExact | fsck.go:122-154 | after a move and a rebuild no listed owner has a moved key iff another primary is chosen and the one moved to had counter zero or is not live |
| ClusterCount.UncountedMoveLosesKeys | fsck.go:128-137 | a run from the start after which a move and a rebuild lose a key the unpartitioned map has |
| ClusterCount.UncountedMoveReachable | fsck.go:128-137 | an honest run leads to such a state |
| Snapshot.ClientExact | dmap_delete.go:157-175 | a put, a delete and a delete for another owner change memory as asked, log it, and the key is not lost any more |
| Snapshot.StepInv | internal/snapshot/snapshot.go:172-305 | every step, failing or not, keeps log, batch, disk and memory in agreement except for pending and lost keys; it loses those whose operations it throws away or does not log, and logging a key takes it back |
| Snapshot.GoneSkipped | internal/snapshot/snapshot.go:219-223 | a drained put whose key is gone changes neither batch nor key set |
| Snapshot.SyncCatchesUp | internal/snapshot/snapshot.go:172-305 | a pass without errors leaves nothing pending and every key not lost on disk as in memory |
| Snapshot.DiskAgrees | internal/snapshot/snapshot.go:172-305 | over every interleaving, with failures and unlogged changes: a key not logged, taken, in progress or lost has its raw form on disk, or is in neither |
| Snapshot.NothingLost | internal/snapshot/snapshot.go:172-305 | no key is lost if key-set reads succeed, flushes with the key set succeed, and every change is logged |
| Snapshot.QuiescentMirrored | internal/snapshot/snapshot.go:172-305 | a quiescent state without lost keys has exactly the raw forms of its map on disk and their keys in the key set |
| Snapshot.KeysMatchStep | internal/snapshot/snapshot.go:208-263 | every step but a flush without the key set keeps the key set equal to the keys on disk |
| Snapshot.KeylessFlushExact | internal/snapshot/snapshot.go:255-261 | such a flush leaves a key in the key set that is not on disk iff it deletes one |
| Restart.ReloadExact | internal/snapshot/loader.go:73-138 | at any point of any run a restart loads in every key order iff the map was ever synced and every key of the key set is on disk with a raw form below 1 MiB; it then holds the entries saved; without keyless flushes the key set is the keys on disk |
| Restart.MissingKeyNeverReloads | internal/snapshot/loader.go:82-85 | a run from the start with a keyless flush, after which a restart fails on a missing key, at once and when all has settled |
| Restart.RestartExact | internal/snapshot/loader.go:73-138 | from a quiescent state without lost keys a restart yields the map or fails, and yields it in every key order iff the map was ever synced and every raw form is below 1 MiB |
| Restart.FullTableNeverReloads | internal/snapshot/loader.go:86-88 | an entry a byte short of 1 MiB is put and synced, and loading it fails after using up any number of tables |
| Snapshot.FailedViewExact | internal/snapshot/snapshot.go:204-206 | a failed key-set read settles the drained keys not logged meanwhile, and the disk is right about them iff it already showed their operation |
| Snapshot.FailedViewLosesPut | internal/snapshot/snapshot.go:204-206 | a run from the start in which it leaves a key off the disk with nothing pending |
| Snapshot.FailedFlushExact | internal/snapshot/snapshot.go:262-263 | a failed flush settles the batched keys not logged meanwhile, and the disk is right about them iff their write would have changed nothing |
| Snapshot.FailedFlushLosesPut | internal/snapshot/snapshot.go:262-263 | a run from the start in which it leaves a key off the disk with nothing pending |
| Snapshot.UnloggedExact | dmap_delete.go:166-173 | an unlogged change leaves a settled key wrong on disk iff it merges one in or deletes one that was there |
| Snapshot.MergeInLosesKey | fsck.go:143-152 | a run from the start in which a merged-in key stays off the disk with nothing pending |
| Wire.Conn.Write | internal/protocol/protocol.go:202-241 | appends exactly the encoding of the message and sets its extra length |
| Wire.Conn.Read | internal/protocol/protocol.go:147-199 | result, including every error, and the bytes left over are those of decoding |
| Wire.RoundTrip | internal/protocol/protocol.go:147-241 | a transmittable message arrives as sent with the reader right after it; an undecoded extra is dropped and the rest arrives |
| Wire.RoundTripExact | internal/protocol/protocol.go:147-241 | a message arrives as sent with the reader right after it iff it is transmittable |
| Wire.EncodeLayout | internal/protocol/protocol.go:94-114 | where each header field, extra, name, key and value is on the wire |
| Wire.ReadErrors | internal/protocol/protocol.go:147-199 | each error of a read by the bytes that cause it |
| Wire.ReadLeaves | internal/protocol/protocol.go:147-199 | what a read leaves on the connection |
| Wire.StreamRoundTrip | internal/protocol/protocol.go:147-241 | a stream of transmittable messages is read back message by message |

## Left out

- Lock expiry: the `done` channels and timers of the locker.
- Locker: the steps of lock and unlock are transitions on values, not methods of an object, because they interleave.
- Snapshot: likewise; the flush of a write batch is one step, although the disk library may split a large batch. Registering and unregistering maps is left out, and so is a map that a move creates without registering it.
- Cluster: the state of all hosts is one value and a client operation is one step; partial failures, crashed hosts and owner lists that differ between hosts are not modelled.
- Backups: their contents, the asynchronous mode and reads that fall back to them; only their owner lists are.
- Tables.Table.PutRaw: requires bytes long enough for the entry their header announces; the code stores any bytes and would misread or panic later.
- Storages.Storage.PutRaw: the same; its one caller, the loader, passes raw forms the sync worker saved.
- Loader.LoadFromBadger: the same of the bytes on disk; other read errors of the disk library are left out. The method itself runs no merge, which an overflowing raw put starts in the background; `Loader.LoadRefines` and `Loader.LoadExact` allow for it.
- Transfer.MergeInto: the arrived storage has one table, as an import always gives.
- Eviction.Janitor: starts from disjoint tables and deletes on the local storage only, without previous owners, backups and snapshot.
- Eviction.ScanDMapForEviction: likewise, and runs until a round removes fewer than 5 keys; cancellation is left out.
- ClusterRefinement.ReadsLikeOneMap: assumes that rebuilds drop only hosts that hold nothing; `ClusterCount` shows exactly when they do. Maps restored from a snapshot are events of the counting law only.
- Cluster.GetKeyVal: does not ask backups.
- Storages.Storage.MergeTables: nothing else runs between chunks and memory can be had; `StorageRuns.KeyRefines` covers other operations between chunks.
- Moves refused because a storage is fragmented, and moves of backups to several hosts.
- The order of start-up around restoring maps, and the iteration of the loader over several maps.
- Atomic: runs on one host's locker; the redirection of lock calls is in `ClusterRefinement`.
- Value aliasing of the bytes `Get` returns, memory mapping and unmapping, and locks inside the storage: its methods are atomic.
- Consistent hashing, membership, serializers, hashing, connections, the client library and the command line.
