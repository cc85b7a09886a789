# NeoOS: models and proofs

Dafny models of the parts of NeoOS that carry the hardest invariants, and proofs
about them. One file per component:

| files | component |
|---|---|
| `FatTable`, `FatVolume`, `FatDriver` | the FAT: entries, cluster chains, allocation, file reads and writes |
| `FatNames`, `FatDir`, `FatDirOps`, `FatSlots`, `FatDirDisk`, `FatDirectory` | FAT directories: 8.3 and long names, the slot scanner, inserting and removing entries, the slot cursor, slots on the disk, create and unlink on the disk |
| `Futex`, `Mutex`, `Semaphore`, `CondVar` | the kernel futex and the library's mutex, semaphore and condition variable on it |
| `MpiMailbox`, `MpiCollectives` | MPI receive matching and collectives |
| `BlkCache` | the write-through sector cache |
| `Pipe` | pipes |
| `StopContinue`, `RtSignals` | job control and queued real-time signals |
| `Heap` | the kernel heap |
| `VnodeSlab`, `VnodeCache`, `VfsPath` | vnode pool, vnode cache, path walk, unmount, path canonicalisation, mount choice |
| `Lists` | linked lists as sequences, shared by the others |
| `Getdents` | the getdents64 record writer and the C library's readdir |

Code that changes things in place is a class whose methods are proved against
functions of the old state. Concurrent protocols are state machines: a state, the
steps any thread may take, and invariants proved of every reachable state of every
run (`IsRun`). Each step is a stretch the source makes atomic, by an atomic
instruction or by holding one lock.

## What the models assume

- FAT: disk I/O succeeds; sectors are 512 bytes and addresses 32 bits; a file is not
  open when it is unlinked, and its entry's cluster heads its chain. Operations that
  allocate are stated for volumes on which the allocator stays inside the data
  (`Room`, an exact condition; see below), and writes for `position + length` plus one
  cluster below 2^32 (`ClustersNeededExact` says what happens beyond). Nothing is
  assumed of a directory's slots. The bytes a scan finds on the stack before it has
  read anything are a parameter (`junk`); `ListingOfDisk` says what depends on them.
- Waiting and waking (`waitq_sleep`, `waitq_wake_*`), frame allocation (`pmm_alloc`)
  and the heap behind the vnode slabs are taken at their documented contracts.
  Signals, timeouts and failures are choices of the environment.
- Semaphore: the count stays below its maximum (`Below`; `PostExactIff` says what
  happens otherwise). Condition variable: fewer than 2^32 signals fall between a waiter's
  read and its comparison (`Window`), and there are fewer than 2^31 threads.
- MPI: user tags stay at or below `MPI_TAG_UB` (`RefusesOnlyNegative` shows that
  MPI_Send does not enforce it, `TagBreaksBarrier` what follows), receives of
  collectives name their tag, and there are fewer than 2^24 collectives
  (`TagClashIff`).
- Sector cache: no writer of a sector overlaps another operation on it (`Guarded`),
  as the filesystem lock ensures; `LastUpdateDecides` says what happens otherwise.
- Pipe: the last end of a kind is not closed while a read or write through it is in
  progress (`Orderly`; `CloseUnderWrite` shows a run in which it is).
- Vnode cache: the filesystem lock serialises walks, opens and unmounts.

## Where the code does less than its comments say

- The cluster allocator searches the whole table. If the table has more entries than
  the volume has clusters and the spare ones are free, it can hand out a cluster that
  does not exist, even while a real one is free (`SlackHandedOut`).
  `ChoicesInDataIff` gives the exact condition for any number of allocations from a
  given table and hint, `EnoughAlwaysIff` the tables that are safe for every hint.
- A new long name is read back as its alias, and a new 8.3 name under another entry's
  long name, if an unfinished run of long-name slots lies right before it; an entry
  can be put behind the end marker, or bring back what lies there
  (`OrphanBreaksCreate`; `InsertListingIff` gives the exact condition, and a directory
  that was tidy to start with stays so).
- A read whose position and length add up to 2^32 or more is not cut at the end of the
  file (`ReadFile`).
- A condition-variable signal can pass over every thread that was asleep when it was
  issued and wake one that arrived later, because the futex list is newest first
  (`SignalMayWakeLaterArrival`; `SignalWakesOne` gives the exact condition).
- A pipe writer can sleep for good after the last reader has closed, because after
  retaking the lock it looks only at fullness (`WriterCanBeStranded`,
  `RelockStrandsIff`, `StrandedForGood`). A pipe read of a multiple of 2^32 bytes
  returns 0, as at end of file (`ReadZeroIff`, `CastLooksLikeEof`).
- SIGCONT does not always cancel a stop. A thread overtaken between finding the signal,
  without the lock, and taking it still stops; one overtaken between taking it and
  marking its siblings still marks them; and pending SIGTSTP, SIGTTIN and SIGTTOU are
  not cleared (`ContinueClearsGroupIff`, `ChosenReachable`, `StragglerReachable`).
- A thread or process that exits with real-time signals queued takes their queue nodes
  out of circulation for good (`ExitLosesNode`, `ConservedIff`, `CirculationShrinks`).
- kmalloc of a size within 4159 bytes of 2^64 gets a block that is too small
  (`LargeEnoughIff`).
- An 8.3 name that ends in a dot reads back without it (`ShortNameRoundTrip`), a
  long name reads back exactly only if it is ASCII (`LongNameRoundTrip`), and an
  alias with a full base and extension has nine distinct forms, not 999
  (`AliasTailSpills`).

## Model

| member | source | states |
|---|---|---|
| FatTable.EntryAfterSet | kernel/fs/fatfs.c:200-241 | after setting one table entry, that entry reads back as the value and every other entry, FAT16 or FAT32, reads as before |
| FatTable.TableAfterSet | kernel/fs/fatfs.c:218-241 | setting an entry updates the table at exactly that cluster and touches no sector outside the FAT |
| FatTable.TableFrame | kernel/fs/fatfs.c:200-216 | a disk change outside the FAT leaves the table as it was |
| FatTable.ChainAcyclic | kernel/fs/fatfs.c:262-264 | a chain that ends in an end-of-chain mark visits no cluster twice |
| FatTable.ChainUnique | kernel/fs/fatfs.c:200-216 | the chain from a cluster is determined by the table |
| FatTable.ChoiceInDataIff | kernel/fs/fatfs.c:288-322 | one allocation: there is enough data for n allocations exactly if the choice is a cluster of the volume and there is enough for the other n - 1 from there |
| FatTable.ChoicesInDataIff | kernel/fs/fatfs.c:288-322 | any number of successive allocations hand out clusters of the volume exactly if enough are free from the hint to the end of the data, or no spare entry is free from the hint on and enough are free in all |
| FatTable.EnoughAlwaysIff | kernel/fs/fatfs.c:288-322 | that holds for every hint and every number exactly if no spare entry of the table is free |
| FatTable.SlackHandedOut | kernel/fs/fatfs.c:288-322 | on every volume with spare table entries there is a table and hint for which a cluster outside the data is chosen while a data cluster is free |
| FatTable.FreeNotOnChain | kernel/fs/fatfs.c:288-322 | a free entry is on no live chain |
| FatTable.GrowKeepsChains | kernel/fs/fatfs.c:501-550 | linking a free entry to the end of one chain keeps all live chains terminated and disjoint, and makes that chain one longer, exactly if the volume has that cluster |
| FatTable.ReleaseKeepsChains | kernel/fs/fatfs.c:325-339 | on any table, freeing one chain empties it and keeps all the others |
| FatTable.StepSoundIff | kernel/fs/fatfs.c:288-339 | a create, truncate or unlink keeps the live chains sound; a growth does exactly if its cluster is one of the volume |
| FatTable.RunKeepsChains | kernel/fs/fatfs.c:288-339 | over every sequence of creates, growths, truncates and unlinks the live chains stay terminated and pairwise disjoint throughout exactly if every growth was by a cluster of the volume |
| FatTable.SoundAcyclic | kernel/fs/fatfs.c:262-264 | live chains are acyclic |
| FatVolume.SectorOfCluster | kernel/fs/fatfs.c:120-122 | each sector of a data cluster lies in the data region and belongs to that cluster alone |
| FatVolume.SectorLbaInjective | kernel/fs/fatfs.c:360-383 | different sectors of a file lie at different disk addresses |
| FatVolume.OtherFileKept | kernel/fs/fatfs.c:391-422 | a write confined to one chain leaves every byte of a disjoint chain |
| FatVolume.FatChangeKeepsBytes | kernel/fs/fatfs.c:218-241 | changing the FAT, or anything before the data region, changes no file byte |
| FatDriver.WalkOnChain | kernel/fs/fatfs.c:360-383 | on a live chain the plain walk from the head reaches the chain's clusters in order |
| FatDriver.ClustersNeededExact | kernel/fs/fatfs.c:501-550 | the clusters computed cover the write exactly when the 32-bit sum does not wrap |
| FatDriver.Volume.ScanRange | kernel/fs/fatfs.c:288-322 | the sector-wise scan finds the first free entry of a range, or none |
| FatDriver.Volume.AllocCluster | kernel/fs/fatfs.c:288-322 | returns 0 exactly when no entry is free, whatever the hint; otherwise turns exactly one free entry into an end mark, the first at or after the hint or else the first of all, and changes nothing else |
| FatDriver.Volume.FreeChain | kernel/fs/fatfs.c:325-339 | ends on any table, cyclic or not, zeroing entries only; on a live chain it releases exactly that chain |
| FatDriver.Volume.ClusterAt | kernel/fs/fatfs.c:360-383 | with any sound cursor the answer is that of the walk from the head, and the new cursor is sound |
| FatDriver.Volume.Locate | kernel/fs/fatfs.c:391-422 | byte offset to sector and place in it; on a live chain that is where the byte is |
| FatDriver.Volume.WriteRange | kernel/fs/fatfs.c:391-422 | the range reads as the data or zeros, the rest of the file and every other chain as before |
| FatDriver.Volume.ReadAt | kernel/fs/fatfs.c:461-499 | as far as they come from the chain, the bytes returned are its bytes, and the read stops short only past its end |
| FatDriver.Volume.CountChain | kernel/fs/fatfs.c:501-550 | counts a chain and finds its last cluster |
| FatDriver.Volume.GrowOne | kernel/fs/fatfs.c:501-550 | adds one fresh cluster to one chain, or reports that none is free; every other chain stays, and there is still room for the rest |
| FatDriver.Volume.ExtendChain | kernel/fs/fatfs.c:501-550 | grows a chain to the length needed exactly when enough clusters are free |
| FatDriver.Volume.StoreData | kernel/fs/fatfs.c:501-550 | zero-fills any gap, then lays the data over the old bytes |
| FatDriver.Volume.WriteFile | kernel/fs/fatfs.c:501-550 | out of space exactly when the free clusters do not suffice; on success the file is its old bytes, zero-filled to the position, with the new bytes laid over; every other file keeps its bytes |
| FatDriver.Volume.ReadFile | kernel/fs/fatfs.c:2072-2082 | nothing from the end on; otherwise the file's bytes in the range come first, and nothing else exactly if position plus length stays below 2^32 (for a file that does not fill its last cluster) |
| FatDriver.Volume.Truncate | kernel/fs/fatfs.c:555-575 | releases the file's clusters, empties its chain, keeps every other file |
| FatDriver.Volume.ZeroCluster | kernel/fs/fatfs.c:1174-1178 | every sector of the cluster reads as zeros, and nothing else changes |
| FatDriver.Volume.MakeDirCluster | kernel/fs/fatfs.c:2123-2174 | a new directory gets one fresh zeroed cluster, or 0 exactly when none is free; no file changes |
| FatNames.FitsIn83 | kernel/fs/fatfs.c:1019-1034 | the character scan accepts exactly the legal upper-case 8.3 names |
| FatNames.ShortNameRoundTrip | kernel/fs/fatfs.c:577-608 | an 8.3 name stored and read back is itself exactly when it does not end in a dot |
| FatNames.MakeShortAlias | kernel/fs/fatfs.c:1039-1098 | the alias is one of the 999 candidates and is unused unless all of them are taken |
| FatNames.AliasTailSpills | kernel/fs/fatfs.c:1039-1098 | with a full base and extension two numbers give the same alias exactly when their leading digits agree |
| FatNames.ReadUnitsBack | kernel/fs/fatfs.c:902-970 | code units written for a name, with terminator and filler, read back as its characters, non-ASCII ones as underscores |
| FatNames.LongNameRoundTrip | kernel/fs/fatfs.c:1186-1261 | a long name cut into slot units and read back is itself exactly when it is ASCII |
| FatDir.LfnSlotReads | kernel/fs/fatfs.c:803-815 | a long-name slot gives back its order, checksum and 13 units |
| FatDir.ShortSlotRoundTrip | kernel/fs/fatfs.c:1285-1307 | an 8.3 slot gives back its cluster and size, split over two fields on FAT32 |
| FatDir.ScanAgree | kernel/fs/fatfs.c:902-970 | the same for two scans from the same place in the same run, whatever was collected before |
| FatDir.ListingOfDisk | kernel/fs/fatfs.c:902-970 | two scans that find different bytes on the stack differ at most in the names of entries whose run lacks a part |
| FatDirOps.DecodedExact | kernel/fs/fatfs.c:902-970 | a stored name is spelled as given exactly for 8.3 names without trailing dot and ASCII long names |
| FatDirOps.BuildLfnRun | kernel/fs/fatfs.c:1186-1261 | builds the reversed, checksummed slots of a long name |
| FatDirOps.OrphanHidesLongName | kernel/fs/fatfs.c:902-970 | behind an unfinished run with another checksum a long name is read as its alias |
| FatDirOps.OrphanTakesLongName | kernel/fs/fatfs.c:902-970 | behind one with the same checksum its slots are counted into that run: the entry is the alias, or has the other run's start and length |
| FatDirOps.EntryLands | kernel/fs/fatfs.c:902-970 | wherever it lies, a written run yields one entry and leaves no trace in what follows; that entry is the new one exactly if the scanner was between runs, or in a run that a plain 8.3 slot does not complete |
| FatDirOps.InsertListingIff | kernel/fs/fatfs.c:1186-1261 | in any directory, writing an entry over free slots adds exactly that entry to the listing and changes no other exactly if the slots are not past the end marker, the scanner takes the entry for what it is, and nothing lies behind an end marker that is overwritten |
| FatDirOps.OrphanBreaksCreate | kernel/fs/fatfs.c:902-970 | a directory for any long name, one leftover slot before free ones, in which creating it lists the alias only |
| FatDirOps.RemoveListing | kernel/fs/fatfs.c:1264-1283 | in any directory, erasing an entry's run removes that entry from the listing and changes no other |
| FatDirOps.TidyInsert | kernel/fs/fatfs.c:1186-1261 | in a tidy directory every place is one where an insert does what it should, and leaves the directory tidy |
| FatDirOps.TidyErase | kernel/fs/fatfs.c:1264-1283 | erasing an entry leaves a tidy directory tidy |
| FatDirOps.InsertKeepsNames | kernel/fs/fatfs.c:1102-1136 | writing over free slots takes no name off the disk |
| FatDirOps.EraseKeepsNames | kernel/fs/fatfs.c:1264-1283 | erasing one entry takes no other name off the disk |
| FatDirOps.InsertAsMap | kernel/fs/fatfs.c:1186-1261 | inserting a fresh name is a map update at that name |
| FatDirOps.RemoveAsMap | kernel/fs/fatfs.c:2176-2190 | removing an entry is a map removal of its name |
| FatDirOps.GrownScan | kernel/fs/fatfs.c:1165-1179 | adding a zeroed cluster to any directory changes no entry |
| FatSlots.Walker.Next | kernel/fs/fatfs.c:851-884 | the cursor yields every slot of the directory once, in order, with its sector and offset, across sectors and clusters |
| FatDirDisk.SlotWritten | kernel/fs/fatfs.c:1102-1136 | changing one slot on the disk changes exactly that slot of the directory |
| FatDirDisk.DirChangeKeepsFiles | kernel/fs/fatfs.c:1102-1136 | a change confined to a directory's sectors, the fixed FAT16 root included, keeps the FAT and every other file's bytes |
| FatDirDisk.SlotWriter.Put | kernel/fs/fatfs.c:1115-1132 | the sector buffer, written out when another sector is needed, loses no slot |
| FatDirDisk.WriteSlotsAt | kernel/fs/fatfs.c:1102-1136 | the walk writes the given slots from the given address on and nothing else; it succeeds exactly when they fit |
| FatDirDisk.EraseRunAt | kernel/fs/fatfs.c:1264-1283 | the walk marks exactly the run at the given address deleted |
| FatDirDisk.InodeIdsDistinct | kernel/fs/fatfs.c:1890-1892 | an inode id names one slot of one directory of the whole volume, and none is the root's |
| FatDirectory.DirNext | kernel/fs/fatfs.c:902-970 | one call of the scanner, on the disk, returns the next entry of the listing with the addresses of its slot and run, and stops right behind it |
| FatDirectory.DirFind | kernel/fs/fatfs.c:995-1003 | finds the first entry of the listing with that exact name, or reports that there is none |
| FatDirectory.TakenNames | kernel/fs/fatfs.c:1084-1094 | collects the 8.3 names of all entries, which an alias is tried against |
| FatDirectory.FirstFreeRun | kernel/fs/fatfs.c:1142-1161 | finds the address of the first stretch of free slots long enough exactly if there is one |
| FatDirectory.GrownSlots | kernel/fs/fatfs.c:1165-1179 | with one more cluster that reads as zeros a directory is its old slots and free ones behind them |
| FatDirectory.EmptyDirectory | kernel/fs/fatfs.c:2132-2141 | a zeroed directory is empty and tidy |
| FatDirectory.GrowDir | kernel/fs/fatfs.c:1165-1179 | links and zeroes one fresh cluster exactly if an entry of the table is free; all chains stay sound and every other file keeps its bytes |
| FatDirectory.FindFreeRun | kernel/fs/fatfs.c:1140-1181 | the first stretch long enough, in the directory as it is or grown by one cluster when it has to be and can; found exactly if there is room then |
| FatDirectory.ShortFor | kernel/fs/fatfs.c:1186-1202 | the 8.3 slot built for a name holds its short form or alias, attribute, cluster and size |
| FatDirectory.AddressAfter | kernel/fs/fatfs.c:1236-1256 | the second walk finds the address of the 8.3 slot |
| FatDirectory.WriteEntry | kernel/fs/fatfs.c:1204-1256 | the entry's slots are laid down at the place found, and nothing outside the directory changes |
| FatDirectory.CreateNamed | kernel/fs/fatfs.c:1186-1261 | each error exactly under its condition, lack of room in terms of the table's free entries; on success the disk holds the entry in the first stretch that could take it, at the returned address; chains stay sound and every other file keeps its bytes |
| FatDirectory.CreatedListing | kernel/fs/fatfs.c:1186-1261 | what is then on the disk lists as before plus exactly that entry exactly if the place was clean; in a tidy directory it was |
| FatDirectory.CreatedMap | kernel/fs/fatfs.c:1186-1261 | with names on the disk, a create is a map update at that name |
| FatDirectory.Create | kernel/fs/fatfs.c:2107-2121 | an existing name is refused exactly; otherwise as above, from name to inode id, on the volume's disk |
| FatDirectory.FatChangeKeepsSlots | kernel/fs/fatfs.c:325-339 | freeing clusters changes no directory slot |
| FatDirectory.FreeVictim | kernel/fs/fatfs.c:2185-2186 | the unlinked file's chain is released, all others stay sound and keep their bytes |
| FatDirectory.EraseEntry | kernel/fs/fatfs.c:1264-1283 | exactly the entry's slots are marked deleted on the disk |
| FatDirectory.UnlinkedMap | kernel/fs/fatfs.c:1264-1283 | erasing what a lookup found removes exactly that entry, keeps a directory tidy and names on the disk, and is a map removal |
| FatDirectory.Unlink | kernel/fs/fatfs.c:2176-2190 | a missing name and a directory are refused exactly and change nothing; success releases the file's chain, removes exactly the first entry of that name, in any directory, and keeps every other file |
| FutexBucket.WakeActsOnOneKey | kernel/ipc/futex.c:153-180 | a wake takes the first waiters of its own futex and leaves every other futex in the bucket as it was |
| FutexBucket.Bucket.Wake | kernel/ipc/futex.c:153-180 | the list walk takes up to the number asked for of the matching waiters, from the front, and counts them |
| FutexBucket.Bucket.Unlink | kernel/ipc/futex.c:129-139 | a sleeper that was not woken takes only its own record off the list |
| FutexKernel.KStepKeepsInv | kernel/ipc/futex.c:90-151 | every kernel step keeps: listed means asleep or roused, each once, and one holder of the bucket lock |
| FutexKernel.WakeKeepsInv | kernel/ipc/futex.c:153-180 | a wake keeps the same |
| FutexKernel.SleepersListed | kernel/ipc/futex.c:113-130 | with the bucket lock free, whoever sleeps is on the list |
| Mutex.LinkedStep | lib/pthread.c:49-69 | every step keeps program counters and kernel phases in agreement, with waiters comparing against 2 |
| Mutex.ExclusiveStep | lib/pthread.c:39-80 | every step keeps: the word is nonzero exactly while one thread holds, and no two do |
| Mutex.NoLostWakeUserStep | lib/pthread.c:49-80 | every user step keeps: a sleeper means word 2, an unlocker not finished, or a woken thread yet to retry |
| Mutex.NoLostWakeKernelStep | kernel/ipc/futex.c:90-151 | every kernel step of a waiter keeps the same |
| Mutex.NoLostWakeWakeStep | kernel/ipc/futex.c:153-180 | the wake of an unlock keeps the same |
| Mutex.MutexSafe | lib/pthread.c:39-80 | in every run of any number of threads at most one holds the mutex and no wake has been lost |
| Mutex.SleeperHasRescuer | lib/pthread.c:49-80 | whenever somebody sleeps there is a holder, an unlocker or a woken thread |
| Semaphore.PendingChange | lib/semaphore.c:46-87 | a step moves the number of pending wakes by the stepping thread's own change |
| Semaphore.PostExactIff | lib/semaphore.c:75-87 | a post keeps count plus waits equal to initial plus posts exactly if the count is below its 32-bit maximum |
| Semaphore.NoLostPostStep | lib/semaphore.c:23-87 | every step but a wake keeps: while anyone sleeps the count is at most posts yet to wake plus woken threads yet to retry |
| Semaphore.NoLostPostWake | lib/semaphore.c:75-87 | the wake of a post keeps the same |
| Semaphore.SemaphoreSafe | lib/semaphore.c:23-87 | in every run that stays below the maximum the count is never negative, count plus successful waits equals initial plus posts, and no post is lost on a sleeper |
| Semaphore.SettledSleeperMeansEmpty | lib/semaphore.c:46-87 | once posts and woken threads have settled, a sleeper means the count is 0 |
| CondVar.ComparisonFooledIff | lib/pthread.c:111-130 | the 32-bit comparison is fooled exactly at multiples of 2^32 |
| CondVar.ComparePassed | kernel/ipc/futex.c:113-122 | inside the window the comparison passes exactly when no signal came since the read |
| CondVar.CondSafe | lib/pthread.c:111-156 | in every run the invariant holds and the broadcast mark only grows |
| CondVar.BroadcastReachesAll | lib/pthread.c:149-156 | once a broadcast has returned, nobody who read before its increment is ever asleep again on that read |
| CondVar.SignalWakesOne | lib/pthread.c:142-147 | a signal with sleepers wakes one; it had read before the signal exactly when nobody who read afterwards is listed |
| CondVar.SignalMayWakeLaterArrival | lib/pthread.c:142-147 | a run in which a signal wakes a later arrival and leaves the earlier sleeper asleep |
| MpiMailbox.ReceiveIsMailboxTake | lib/mpi.c:386-430 | a receive returns the earliest match of pending list and socket together, and removes exactly it, exactly when the pool takes what it passes over; otherwise nothing is lost under the same condition |
| MpiMailbox.TakeFront | lib/mpi.c:386-430 | taking the earliest match takes the front of its sender-and-tag stream and leaves other streams alone |
| MpiMailbox.NeverReordered | lib/mpi.c:345-430 | over every history that never overflows, received followed by still pending is what arrived, in order, per sender and tag |
| MpiMailbox.Endpoint.Take | lib/mpi.c:352-363 | unlinks the earliest matching pending message |
| MpiMailbox.Endpoint.CopyOut | lib/mpi.c:372-391 | copying an unlinked message out and releasing its slot leaves the slots in use exactly those on the list |
| MpiMailbox.Endpoint.Alloc | lib/mpi.c:365-370 | finds a free pool slot exactly when fewer than 16 are listed |
| MpiMailbox.Endpoint.Keep | lib/mpi.c:412-429 | appends an unasked-for message, or drops it exactly when the pool is full |
| MpiMailbox.Endpoint.ReadOne | lib/mpi.c:394-429 | one receive from the socket: failure or match ends the call, runts and interruptions are skipped, anything else is kept |
| MpiMailbox.Endpoint.RecvMatch | lib/mpi.c:386-430 | computes exactly the receive specified above, and slots in use stay exactly those on the list |
| MpiCollectives.TagParts | lib/mpi.c:57-71 | a collective's tag gives back its kind and 24-bit number, above every user tag and apart from the start-up tags |
| MpiCollectives.TagClashIff | lib/mpi.c:69-71 | two collectives share a tag exactly when of one kind and a multiple of 2^24 apart |
| MpiCollectives.RefusesOnlyNegative | lib/mpi.c:335-335 | the tag test of MPI_Send refuses exactly the negative tags |
| MpiCollectives.FoldAnyOrder | lib/mpi.c:518-603 | for an operation that does not care about order, one contribution from every other rank folds to the rank-order result in any arrival order |
| MpiCollectives.IntegersOrderFree | lib/mpi.c:518-545 | sum, product, maximum and minimum of integers are such operations |
| MpiCollectives.TakenBelongs | lib/mpi.c:467-603 | a packet taken inside a collective was sent for that very call and carries what its sender passed |
| MpiCollectives.FreshCounts | lib/mpi.c:590-602 | a sender once counted has no second packet for the same call |
| MpiCollectives.HeardFromAll | lib/mpi.c:467-496 | having heard from n - 1 senders the root knows that every rank is in this call |
| MpiCollectives.InvStep | lib/mpi.c:467-610 | every step of every rank, and every loss or user message, keeps the protocol invariant |
| MpiCollectives.BarrierSeparates | lib/mpi.c:467-496 | no rank leaves its k-th collective, a barrier, before every rank has entered it |
| MpiCollectives.TagBreaksBarrier | lib/mpi.c:335-335 | a run in which a user message with a library tag lets rank 0 through a barrier that rank 1 has not entered |
| MpiCollectives.ReduceExact | lib/mpi.c:567-603 | whatever the operation, a completed reduce is the root's value with exactly one contribution of every other rank folded in, in some order, all passed to that call, however far ahead other ranks are |
| MpiCollectives.ReduceInRankOrder | lib/mpi.c:567-603 | for an operation that does not care about order it is the fold in rank order |
| MpiCollectives.ResultsStep | lib/mpi.c:605-610 | every step keeps: the broadcast half of an allreduce sends what the reduce half gave rank 0 |
| MpiCollectives.BcastExact | lib/mpi.c:498-515 | a completed broadcast delivers what the root passed to that call |
| MpiCollectives.AllreduceExact | lib/mpi.c:605-610 | every rank that completes an allreduce has the one value that rank 0 folded from exactly one contribution per rank |
| BlkCache.NeighboursSpread | kernel/fs/blkcache.c:25-30 | 64 consecutive sectors fall into 64 different buckets |
| BlkCache.UnlinkedKeeps | kernel/fs/blkcache.c:62-69 | unlinking keeps keys unique, every valid entry once on its own chain, and stamps distinct |
| BlkCache.InstallOver | kernel/fs/blkcache.c:74-94 | claiming over a victim keeps the same and gives up at most the victim's sector |
| BlkCache.Cache.Lookup | kernel/fs/blkcache.c:52-59 | the chain walk finds a sector exactly when the cache holds it |
| BlkCache.Cache.UnlinkBuf | kernel/fs/blkcache.c:62-69 | takes one entry off its chain and frees it |
| BlkCache.Cache.FindVictim | kernel/fs/blkcache.c:78-85 | a free entry if there is any, otherwise one with the least recent stamp |
| BlkCache.Cache.Install | kernel/fs/blkcache.c:113-123 | the sector is held and most recent, all others as before but the victim's |
| BlkCache.Cache.TryHit | kernel/fs/blkcache.c:96-106 | a hit returns the bytes held, makes the sector most recent and changes nothing else held |
| BlkCache.Cache.Forget | kernel/fs/blkcache.c:136-139 | after a failed write exactly that sector is forgotten |
| BlkCache.Cache.InvalidateDrive | kernel/fs/blkcache.c:144-152 | exactly the sectors of other drives stay |
| BlkCacheRace.InstalledIsPut | kernel/fs/blkcache.c:74-94 | the class's install is the install step of the interleaved model |
| BlkCacheRace.ReadReturnsDisk | kernel/fs/blkcache.c:96-124 | a completed read returns the bytes on the disk at that moment |
| BlkCacheRace.CacheCoherent | kernel/fs/blkcache.c:96-152 | over every guarded interleaving, with reads split at the lock drop and writes in two steps, every entry of a sector not being written equals the disk |
| BlkCacheRace.LastUpdateDecides | kernel/fs/blkcache.c:96-142 | in any interleaving, after the last update of an entry and the last write of its sector the two agree exactly if the update brought what was on the disk, or was dropped again |
| BlkCacheRace.InterveningWriteIff | kernel/fs/blkcache.c:107-122 | a write between a reader's disk read and its install leaves wrong bytes exactly when it changed the sector |
| BlkCacheRace.TwoWritersIff | kernel/fs/blkcache.c:126-142 | two writers whose cache updates come in the other order than their disk writes leave wrong bytes exactly if they wrote different ones |
| PipeRing.Ring.Read | kernel/ipc/pipe.c:80-88 | returns the oldest bytes, up to the number wanted, and keeps the rest in order, across wrap-around |
| PipeRing.Ring.Write | kernel/ipc/pipe.c:91-100 | appends as much as there is room for |
| Pipe.InOrderStep | kernel/ipc/pipe.c:102-203 | every step keeps bytes read followed by bytes buffered equal to bytes written |
| Pipe.CoveredStep | kernel/ipc/pipe.c:102-266 | every step keeps: a reader sleeps only on an empty pipe with a writer, or with its wake due |
| Pipe.PipeSafe | kernel/ipc/pipe.c:102-266 | both over every run, and end of file is final |
| Pipe.EofStepIff | kernel/ipc/pipe.c:111-117 | a step keeps end of file final exactly unless it writes bytes after it was reported |
| Pipe.CloseUnderWrite | kernel/ipc/pipe.c:237-266 | a run in which a write end closed under a write puts a byte in after end of file |
| Pipe.ReadZeroIff | kernel/ipc/pipe.c:102-141 | a read returns 0 exactly at end of file, or if it asks for a multiple of 2^32 bytes of a pipe that has some |
| Pipe.CastLooksLikeEof | kernel/ipc/pipe.c:132-132 | a run in which a read returns 0 with a byte in the pipe and a writer left |
| Pipe.EofMeansAllRead | kernel/ipc/pipe.c:111-117 | unless a read was of the second kind, one returned 0 only after everything written had been read |
| Pipe.SleepingReaderWillWake | kernel/ipc/pipe.c:102-141 | a sleeping reader with data present or no writer left has a wake on its way |
| Pipe.WritersCoveredStep | kernel/ipc/pipe.c:143-266 | every step but the relock keeps: a writer sleeps only on a full pipe with a reader, or with its wake due |
| Pipe.RelockStrandsIff | kernel/ipc/pipe.c:185-191 | the relock strands a writer exactly when the pipe is full, no reader is left and no wake is due |
| Pipe.WritersSafe | kernel/ipc/pipe.c:143-266 | in every run no writer sleeps without reason or wake due as long as no relock was of the stranding kind |
| Pipe.StrandedForGood | kernel/ipc/pipe.c:185-191 | a stranded writer stays so under every step of others but the close of another write end |
| Pipe.WriterCanBeStranded | kernel/ipc/pipe.c:179-191 | a run that strands a writer |
| StopContinue.InvStep | kernel/ipc/signal.c:310-450 | every step keeps: a stop under way or complete has seen no continue since it was taken |
| StopContinue.ContinueNeverLost | kernel/ipc/signal.c:310-450 | in every run, from a continue until the thread takes another stop signal it is not stopped |
| StopContinue.CalmStays | kernel/ipc/signal.c:310-413 | with nothing on its way no thread stops before a stop signal is sent |
| StopContinue.WillingCanStop | kernel/ipc/signal.c:310-390 | a running thread with a stop signal pending can end up stopped from wherever it is |
| StopContinue.ContinueClearsGroupIff | kernel/ipc/signal.c:392-413 | right after a continue some thread can still stop unasked exactly when one has found a stop signal and not taken it, or taken one and not marked its live siblings, or a stop signal other than SIGSTOP is pending |
| StopContinue.StragglerReachable | kernel/ipc/signal.c:316-326 | a run that gets there |
| StopContinue.ChosenReachable | kernel/ipc/signal.c:629-637 | a run in which a thread takes a stop signal that a continue has cleared since it was found |
| RtSignals.PlacesStep | kernel/ipc/signal.c:89-120 | every step, an exit included, leaves each node in as many places as before, counting the lost |
| RtSignals.OnePlace | kernel/ipc/signal.c:89-120 | a queued node is neither free nor with a sender or taker, nor lost |
| RtSignals.AppendStep | kernel/ipc/signal.c:112-177 | queueing keeps payload order per number and the pending bits |
| RtSignals.TakeOrder | kernel/ipc/signal.c:452-457 | taking keeps payload order per number |
| RtSignals.TakeBits | kernel/ipc/signal.c:452-468 | taking keeps: a queued payload has its pending bit set |
| RtSignals.RtSafe | kernel/ipc/signal.c:89-177 | over every interleaving of sends, takes and exits each of the 64 nodes is in one place or lost, payloads of one number leave each queue in send order and once, and none waits without its bit |
| RtSignals.ConservedIff | kernel/sched/proc.c:1028-1035 | all 64 nodes are in circulation exactly if every holder that exited had an empty queue |
| RtSignals.LostForGood | kernel/sched/proc.c:1028-1035 | a lost node never comes back |
| RtSignals.CirculationShrinks | kernel/sched/thread.c:62-69 | nodes in circulation are 64 less those lost, and with 64 lost nothing can be queued |
| RtSignals.ExitLosesNode | kernel/sched/thread.c:62-69 | a run that loses one |
| RtSignals.TakenNodeUntouched | kernel/ipc/signal.c:469-475 | the payload read after the lock is dropped is the one unlinked |
| RtSignals.Queue.Take | kernel/ipc/signal.c:444-468 | the code unlinks the first payload of the number and sets the bit again exactly when another is left |
| HeapModel.LargeEnoughIff | kernel/mm/heap.c:215-223 | a large block holds the size and its header exactly when the 64-bit sum did not wrap |
| HeapModel.LivePlaced | kernel/mm/heap.c:132-156 | every address handed out is 16-byte aligned, clear of the header and inside its page |
| HeapModel.LiveDisjoint | kernel/mm/heap.c:171-236 | blocks in use never overlap |
| HeapModel.SlotFreeXorLive | kernel/mm/heap.c:132-280 | each slot is either in use or once on its page's free list, whose length is the page's count |
| HeapModel.CarvedAre | kernel/mm/heap.c:132-156 | a new page's free list holds each of its slots once |
| HeapModel.Heap.SizeClassFor | kernel/mm/heap.c:123-130 | the smallest class that fits |
| HeapModel.Heap.OrderFor | kernel/mm/heap.c:217-220 | the smallest order that covers the frames |
| HeapModel.Heap.NewPage | kernel/mm/heap.c:132-156 | carves a fresh frame and keeps the invariant |
| HeapModel.Heap.GetPage | kernel/mm/heap.c:195-207 | a page with a free slot; a new one only when no page of the class has any |
| HeapModel.Heap.Malloc | kernel/mm/heap.c:171-236 | keeps the invariant, hands out an address not in use, serves a small size from the smallest class that fits and a large one from the smallest order, fails only for size 0 or without frames and then changes nothing, and takes a new page only when the class has no free slot |
| HeapModel.Heap.Free | kernel/mm/heap.c:251-280 | takes exactly that block out of use, back onto its page's list or to the frame allocator |
| VnodeSlab.TotalIsUsed | kernel/fs/vnode_slab.c:106-111 | the pool's total is the number of slots in use |
| VnodeSlab.FlipUsed | kernel/fs/vnode_slab.c:41-52 | flipping a bitmap bit adds or removes exactly that vnode |
| VnodeSlab.Pool.Alloc | kernel/fs/vnode_slab.c:54-83 | hands out a slot not in use; grows only when every slab is full, fails only then and without memory |
| VnodeSlab.Pool.Free | kernel/fs/vnode_slab.c:85-104 | frees exactly that slot |
| VnodeCache.HandOver | kernel/fs/vfs.c:381-391 | holding the child and letting go of the parent nets one reference to the child |
| VnodeCache.AddedKeeps | kernel/fs/vfs.c:114-136 | installing an uncached inode keeps one vnode per mount and inode, each once on its chain |
| VnodeCache.RemovedKeeps | kernel/fs/vfs.c:158-170 | evicting keeps the same |
| VnodeCache.QuietIff | kernel/fs/vfs.c:300-315 | no vnode keeps the mount busy exactly when its root is held once and nothing else of it is cached |
| VnodeCache.Cache.InUseCount | kernel/fs/vnode_slab.c:106-111 | the slab's count is the number of vnodes on the chains |
| VnodeCache.Cache.Get | kernel/fs/vfs.c:102-137 | raises exactly one count by one, or changes nothing and fails |
| VnodeCache.Cache.Put | kernel/fs/vfs.c:139-172 | lowers exactly one count by one and evicts on the last |
| VnodeCache.Cache.Descend | kernel/fs/vfs.c:366-391 | one component of a walk moves the one held reference, or gives it up |
| VnodeCache.Cache.Resolve | kernel/fs/vfs.c:343-402 | a failed walk leaves every count unchanged, a successful one raises exactly that of the vnode it returns, which is where the path leads; with memory and readable inodes it fails exactly as the path does, driver errors included |
| VnodeCache.Cache.Umount | kernel/fs/vfs.c:279-321 | succeeds exactly when the mount's own reference to its root is the only one to any of its vnodes, and changes nothing otherwise |
| VfsPath.ComponentsJoin | kernel/fs/vfs.c:325-338 | a slash between two strings separates their components |
| VfsPath.ResultCanonical | kernel/fs/vfs.c:485-509 | the result has no ".", ".." or empty component |
| VfsPath.CanonicalShape | kernel/fs/vfs.c:404-429 | a result is absolute, splits back into its components, and ends in a slash only if it is the root |
| VfsPath.Idempotent | kernel/fs/vfs.c:485-509 | canonicalising a result gives it back |
| VfsPath.RelativeIsJoined | kernel/fs/vfs.c:485-509 | a relative path means base and path joined by a slash, in success and failure |
| VfsPath.NextComponent | kernel/fs/vfs.c:325-338 | returns the next component, cut at 255 characters, and moves past it |
| VfsPath.Pop | kernel/fs/vfs.c:410-417 | ".." drops exactly the last component of the buffer, and none at the root |
| VfsPath.CanonPush | kernel/fs/vfs.c:407-429 | the buffer becomes the rendered stack with the component pushed; fails exactly when that does not fit |
| VfsPath.Canonicalise | kernel/fs/vfs.c:485-509 | the buffer equals the rendered fold of all components over a stack; fails exactly when some intermediate result does not fit |
| VfsPath.MountFor | kernel/fs/vfs.c:180-215 | chooses the longest mount point that is a prefix at a component boundary, and the path below it |
| VfsPath.RelativeStartsAtRoot | kernel/fs/vfs.c:180-215 | the path below a mount starts with a slash and has the remaining components |
| Getdents.RecordRoundTrip | kernel/fs/file.c:111-125 | a record reads back as its entry, next position and length, whatever follows it |
| Getdents.ParsePack | kernel/fs/file.c:82-128 | walking a buffer by record lengths yields its entries in order |
| Getdents.ListingInOrder | kernel/fs/file.c:76-130 | for any buffer sizes, reading on yields every entry once, in order, up to where the calls got |
| Getdents.ListingComplete | kernel/fs/file.c:76-130 | with buffers that fit every record, enough calls list the whole directory |
| Getdents.PutRecord | kernel/fs/file.c:111-125 | writes exactly the record and zeroes its padding, touching nothing else |
| Getdents.OpenDir.Getdents | kernel/fs/file.c:76-130 | fills the buffer with as many whole records as fit and moves past exactly those; refuses exactly when not even the first fits |
| Getdents.Stream.Readdir | lib/dirent.c:48-65 | returns the entries of the directory, each once and in order, then nothing |
| Getdents.Stream.Refill | lib/dirent.c:51-57 | fetches the next buffer, or notes the end exactly when nothing is left |

## Left out

- FatDriver.Volume.WriteFile: the `(int)` length it returns and the directory-entry update by its caller are not modelled; on lack of space the file may keep clusters it gained, as in the source.
- FatDriver.Volume.MakeDirCluster: the "." and ".." entries written into the new cluster are not modelled.
- FatNames.LongNameRoundTrip: code units beyond Latin-1 are not modelled, because the source turns every non-ASCII unit into an underscore.
- MpiCollectives.IntegersOrderFree: integers are unbounded and buffers hold one value; `ReduceExact` holds for any operation on them.
- StopContinue.ContinueNeverLost: signal masks, handlers for stop signals and the report to the parent are not modelled.
- VnodeCache.Cache.Umount: the unlocked interleavings between its bucket scans are not modelled, as one lock serialises the callers.
- Second-FAT mirroring, I/O-error recovery, the legacy path-based FAT interface, FAT timestamps: they add cases without adding depth.
- MPI start-up (`rendezvous`), launching, and message truncation: single-branch code around the modelled core.
- Pipe polling and the lifetime of the pipe record after its last close; the debug heap's poison and redzones.
- Signal frames and delivery, wait4 reporting, the scheduler, paging and drivers: hardware semantics or code that is not part of this model.
- devfs, embedfs, procfs, ramfs, thin library wrappers and userland programs: easy members only.
