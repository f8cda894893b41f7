# A verified model of the yfs caching file system

The repository is a small distributed file system: a lock server whose locks clients
cache, a write-back cache of extents at every client that is flushed before a lock goes
back, an extent server on a block disk with inodes, and a file system client that keeps
directories as text inside extents. This project models the four layers and proves what
each promises and how they fit together. `dafny verify dfyconfig.toml` checks all of it.

| files | what they hold |
|---|---|
| `wrappers.dfy` | options, bytes |
| `lock_server.dfy`, `lock_client.dfy` | the two lock objects: every critical section as a function on one lock's record, and as a method of a class that updates its table in place |
| `lock_system.dfy` | one lock, any number of clients and threads, and the calls in flight; the steps, and the invariant every step keeps |
| `lock_theorems.dfy`, `lock_progress.dfy`, `lock_fairness.dfy` | safety in every reachable state; the protocol comes to rest, and at rest nobody waits in vain; how many users a waiting client waits for |
| `extent_cache.dfy` | the write-back cache: calls as functions on one entry, and the class |
| `coherence.dfy`, `atomicity.dfy`, `stale_size.dfy` | locks and caches together: every run is a history of one shared variable; in any interleaving what clients read, change and put back under a lock is one change; a run with a wrong size |
| `disk_layout.dfy`, `file_system.dfy` | blocks, inodes as bytes, and the inode layer as functions of the disk |
| `block_ownership.dfy`, `file_store.dfy`, `file_runs.dfy`, `root_table.dfy` | allocator and ownership; the disk as a map from inodes to files, over single calls and over runs; which start states are good |
| `inode_manager.dfy`, `extent_server.dfy` | the objects of the inode layer and the extent server, in place |
| `directory.dfy`, `file_bytes.dfy`, `yfs_client.dfy`, `yfs_uses.dfy` | the directory text and its parser; byte ranges; the file system operations, singly and one after the other |
| `disk_coherence.dfy`, `shared_directory.dfy` | all locks, caches and extents over one disk; many clients in one directory |

Locks. A step of the system is one critical section of a client, or the server handling
one call. Calls are delivered once, in any order. A client is its record, a bag of
threads (asleep, woken, calling, inside, ...) and a bag of calls and replies in flight.
The invariant gives every client a stage; its one active thread, its one outstanding call
and the counts of revocations and retries follow from the stage and from what the server
has written down. Mutual exclusion, the safety of the unchecked grant, and the absence of
lost, doubled or stale messages are read off it. Spurious wake-ups are steps too.

Where the code does not do what it is for, the code is modelled as it is, and a lemma says
exactly when it does:

- The block that should number a long file's last blocks is never allocated, so all files
  that are created share block 0 for it. `FileStore.WriteKeepsSound` and
  `FileStore.SharedTable`: a write keeps ownership exact if and only if the file needs no
  such table or no other file needs the same one; otherwise the two files read the same
  bytes behind their direct blocks. `FileRuns.SharedTableArises` is such a run from the
  formatted disk.
- The block manager reads `sb.nblocks` before setting it, and the root inode's block
  numbers are never set. Both are parameters of the start state. `FileRuns.FirstBlock`: the
  first block given to a file is a data block if and only if that memory held at least
  8 * 4096; otherwise it is the block of one of the last inodes. `RootTable.TableExactly`:
  puts to the root of the formatted disk go right, wherever the search for blocks begins,
  if and only if the root's table number is below 12, the first inode's block. Above, a put
  of 101 blocks breaks: the table is the root's own inode, or brings another inode to
  life, or is wiped by the data, or is past the end of the disk. With both right
  (`FileRuns.StartSound`) every run stays sound.
- Attributes are cached without the lock by `isfile` and the like. Data stays coherent;
  sizes do not. `StaleSize.ProbedSizeGoesStale` is a run in which a client is told a wrong
  size inside the lock. `Coherence.ProbedSizeStays`: the answer is right if and only if the
  client has gotten or put the data since the probe, or else the data the server had at
  the probe is as long as the data is now. With nobody in
  possession at the probe that is the length at the probe; with an owner who has not
  flushed it need not be (`StaleSize.ProbeMissesUnflushed`). `Coherence.CoherentSizes`:
  without such calls the answer is always right. `FileBytes.LengthExactly`: what a wrong
  size does to setattr. The operations on data do not depend on it.
- A directory entry with an empty name does not read back; `Directory.ParsePrintExactly`.
- A read whose offset and size add up beyond 64 bits takes the other branch; it makes no
  difference, `FileBytes.PortionIsRange`. A write throws if and only if its offset is
  negative or its end beyond the longest string, `FileBytes.RewrittenIs`.

Uninitialised memory, and what the server answers about a removed extent, are parameters
(`junk`, `noise`); the theorems hold whatever they are.

## Model

| member | source | states |
|---|---|---|
| LockServer.AcquireStep | lock_server_cache.cc:19-81 | whatever is called, the queue is non-empty exactly in WAITING, has no duplicates, and its elements are `clientS` |
| LockServer.ReleaseStep | lock_server_cache.cc:83-124 | a release by whomever, holder or not, keeps that shape |
| LockServer.AcquireAnswers | lock_server_cache.cc:26-68 | for any caller: who gets the lock, who is queued, once each, and when the holder is asked to give it back |
| LockServer.ReleaseAnswers | lock_server_cache.cc:90-108 | a release by the holder frees the lock or leaves it to the front, who is told; one by anybody else does nothing |
| LockServer.BoundedBypass | lock_server_cache.cc:26-68 | over any call sequence, a client at position p is granted after exactly the p grants to those ahead of it, in queue order |
| LockServer.LockServerCache.Acquire | lock_server_cache.cc:19-81 | the handler on the table: new entry, reply, and whom it revokes; other locks untouched |
| LockServer.LockServerCache.Release | lock_server_cache.cc:83-124 | the handler on the table: new entry and whom it tells to retry; other locks untouched |
| LockClient.LockClientCache.Acquire | lock_client_cache.cc:37-76 | acquire up to the mutex drop, with the loop's retry test |
| LockClient.LockClientCache.OnReply | lock_client_cache.cc:77-93 | the server's answer taken |
| LockClient.LockClientCache.OnRetryWake | lock_client_cache.cc:79-83 | the wait for the retry flag |
| LockClient.LockClientCache.Release | lock_client_cache.cc:96-134 | release up to the mutex drop, and whether it signals |
| LockClient.LockClientCache.OnReleased | lock_client_cache.cc:115-117 | the release call has come back |
| LockClient.LockClientCache.RevokeHandler | lock_client_cache.cc:148-181 | the revoke handler, by status |
| LockClient.LockClientCache.RetryHandler | lock_client_cache.cc:183-193 | the retry handler |
| LockClient.StrayRelease | lock_client_cache.cc:119-142 | a release without the lock changes no status and sends nothing |
| LockClient.RevokedRelease | lock_client_cache.cc:108-118 | a release obeys a remembered revocation and forgets it |
| LockClient.EarlyRevoke | lock_client_cache.cc:157-161 | a revoke call in NONE, ACQUIRING or RELEASING is remembered |
| LockClient.StaleRetry | lock_client_cache.cc:50-53 | a stale retry flag would skip the request |
| LockSystem.InitialInv | lock_client_cache.h:47-59 | the start satisfies the invariant |
| LockSystem.StepInv | lock_client_cache.cc:37-193 | every step of every client, thread, handler and of the server keeps the invariant |
| LockSystem.ActFits | lock_client_cache.cc:37-193 | every critical section takes a client from one stage to another, with its threads, calls and flags as the new stage demands |
| LockSystem.AcquireViews | lock_server_cache.cc:26-68 | what serving an acquire call changes in the server's opinion of each client |
| LockSystem.ReleaseViews | lock_server_cache.cc:90-108 | what serving a release call changes in it |
| LockTheorems.ReachableInv | lock_client_cache.cc:37-193 | the invariant holds in every reachable state |
| LockTheorems.MutualExclusion | lock_client_cache.cc:37-193 | in every reachable state a client owns the lock (grant in flight, lock cached or in use, release not yet served) if and only if the server has it as holder, and at most one of its threads uses it |
| LockTheorems.OneOwner | lock_server_cache.cc:19-124 | two owners are the same client |
| LockTheorems.UncheckedGrantIsSafe | lock_server_cache.cc:44-56 | whenever the server answers OK, in the WAITING branch too, the holder is empty and nobody owns the lock |
| LockTheorems.ExactlyOneToken | lock_server_cache.cc:101-120 | for a lock in WAITING exactly one thing is under way, at the holder or else at the queue's front; otherwise nothing is |
| LockTheorems.RetryFlagsMatch | lock_client_cache.cc:71-93 | no client starts to acquire with a stale retry flag; acquire returns at once only with the lock cached; nobody sleeps through a retry call |
| LockTheorems.RevokeReachesHolder | lock_client_cache.cc:148-181 | a revoke call reaches only the holder, never one in NONE or RELEASING, and finds no earlier one recorded there |
| LockTheorems.NobodySleepsIn | lock_client_cache.cc:48-70 | while a thread sleeps on `cond` and the status is NONE or FREE, a woken thread has not yet rechecked |
| LockProgress.RestMeansBusy | lock_client_cache.cc:37-193 | when nothing moves by itself and somebody is in acquire or release, the holder has a thread inside |
| LockProgress.InternalFalls | lock_client_cache.cc:37-193 | a step that no user asked for lowers a measure |
| LockProgress.Bounded | lock_client_cache.cc:37-193 | so such steps are bounded in number |
| LockProgress.ComesToRest | lock_server_cache.cc:101-120 | from every reachable state the protocol comes to rest by itself, with nobody waiting in vain |
| LockFairness.RestTies | lock_client_cache.cc:148-181 | at rest, with somebody waiting, the holder has a thread inside and knows that it must give the lock back |
| LockFairness.RoundGrants | lock_server_cache.cc:101-120 | from rest to rest, if that thread leaves in between, somebody is granted the lock |
| LockFairness.RoundExists | lock_client_cache.cc:96-146 | such a round can always be had |
| LockFairness.WaitsItsTurn | lock_server_cache.cc:26-68 | a client waiting behind p others has been granted the lock after p + 1 such rounds, whatever else clients do: it waits for p + 1 users to leave once each |
| LockFairness.ReleasesGrant | lock_server_cache.cc:83-120 | in any run there is a grant between two release calls served |
| LockFairness.WaitsForReleases | lock_server_cache.cc:26-120 | in any run, resting or not, a client waiting behind p others has been granted the lock once the holder's release and p + 1 more were served |
| ExtentCache.GetReadsView | extent_client_cache.cc:27-77 | get answers the view, leaves it as it is, and leaves the cached size right |
| ExtentCache.GetAttrReadsView | extent_client_cache.cc:79-114 | getattr answers the view's length |
| ExtentCache.PutWritesView | extent_client_cache.cc:116-142 | put makes the data the view, unless the extent is removed |
| ExtentCache.RemoveEmptiesView | extent_client_cache.cc:144-167 | remove makes the view gone, and says so the second time |
| ExtentCache.FlushKeepsView | extent_client_cache.cc:169-200 | flush leaves the server with the view and the cache with nothing |
| ExtentCache.GetAttrReadsKind | extent_client_cache.cc:79-114 | getattr answers the type: that of the entry, or the server's |
| ExtentCache.GetKeepsKind | extent_client_cache.cc:27-77 | get leaves the type as it is, fetched or cached |
| ExtentCache.PutKeepsKind | extent_client_cache.cc:116-142 | put leaves the type of a cached extent as it is |
| ExtentCache.FlushKeepsKind | extent_client_cache.cc:169-200 | flush leaves the type of a live extent at the server |
| ExtentCache.ExtentClientCache.CreateExtent | extent_client_cache.cc:12-24 | create in the cache and at the server; the view is empty |
| ExtentCache.ExtentClientCache.GetExtent | extent_client_cache.cc:27-77 | the object computes the function; other entries untouched |
| ExtentCache.ExtentClientCache.GetAttrExtent | extent_client_cache.cc:79-114 | the same for getattr |
| ExtentCache.ExtentClientCache.PutExtent | extent_client_cache.cc:116-142 | the same for put |
| ExtentCache.ExtentClientCache.RemoveExtent | extent_client_cache.cc:144-167 | the same for remove |
| ExtentCache.ExtentClientCache.FlushExtent | lock_client_cache.h:34-36 | dorelease: the entry goes, the server has what the client saw |
| Coherence.DoIsAllowed | extent_client_cache.cc:27-200 | a call by the client in possession is answered from, and updates, the shared content |
| Coherence.Possession | lock_client_cache.cc:84-117 | possession starts with a grant, ends with the release call that follows the flush, and nothing else moves it |
| Coherence.MoveKeeps | lock_client_cache.cc:108-138 | every protocol step, access and probe keeps coherence |
| Coherence.CoherentRuns | lock_client_cache.cc:108-171 | every run is a history of one shared variable |
| Coherence.Coherence | extent_client_cache.cc:27-200 | the same from the start, with empty caches |
| Coherence.LatestPut | extent_client_cache.cc:27-142 | a get answers the data of the latest put by any client |
| Coherence.CoherentSizes | extent_client_cache.cc:66-72 | without probes outside the lock, getattr answers the length too |
| Coherence.ProbedSizeStays | yfs_client.cc:40-98 | after a probe, and until the entry is given up, the size answered is right if and only if the client has gotten or put the data since, or the server's data at the probe is as long as the data is now; with nobody in possession at the probe the server's data is the variable's |
| StaleSize.ProbedSizeGoesStale | yfs_client.cc:40-98 | a run from the start in which a client inside the lock is told a wrong size, though all data is answered rightly |
| StaleSize.ProbeMissesUnflushed | extent_client_cache.cc:103-111 | a run to a state where a probe would cache a wrong size although nothing changes after it: the owner has not flushed |
| Coherence.EveryExtentCoherent | yfs_client.h:84-98 | the same for all extents and locks together, of numbers the server keeps apart |
| Atomicity.GuardExcludes | yfs_client.h:84-98 | from the acquire to the release of a LockGuard no other client accesses the extent |
| Atomicity.NoLostUpdate | yfs_client.cc:321-338 | whatever others do meanwhile, what an operation puts back replaces exactly what it had read |
| Atomicity.UpdatesSerialize | yfs_client.h:84-98 | in any run whose changes are updates (a put of what its client made of what it got, without leaving in between), the content after any number of moves is that of the updates in the order of the puts |
| Atomicity.NoUpdateLost | yfs_client.cc:213-225 | the same at the end of the run: no update of any client is lost |
| SharedDirectory.DirectorySerializes | yfs_client.cc:213-365 | however clients that add to and unlink from one directory interleave, its text is the printed list of all their changes in order, and reads back as it |
| SharedDirectory.AddedStays | yfs_client.cc:213-265 | a name added by one client is found until some client unlinks it |
| DiskCoherence.FlushStores | extent_client_cache.cc:169-200 | what a flush makes the disk do is what the caches expect of the server, for this extent and all others |
| DiskCoherence.PartRuns | extent_server.cc:17-78 | in a run of all clients, locks, caches and the disk, each number's part is a run of its lock, caches and extent |
| DiskCoherence.DiskCoherent | lock_client_cache.h:34-36 | an extent that is coherent stays so over one disk, as long as its number is not given out anew, and ownership stays exact |
| DiskCoherence.CreationCoherent | extent_client_cache.cc:12-24 | a new extent of an idle number is coherent, and empty |
| DiskCoherence.MadeCoherent | extent_server.cc:17-24 | end to end: an extent created during a run, of a number that was idle, is answered from its creation on like one shared variable that begins empty |
| DiskCoherence.BeginsIdle | inode_manager.cc:95-105 | on the formatted disk the root is coherent and empty and every number is idle, so this covers every extent of a run from there |
| DiskCoherence.UnownedIdle | lock_client_cache.cc:108-118 | a number whose lock nobody has is idle, so one whose extent was removed may be given out again |
| DiskLayout.StartFollowsInodes | inode_manager.h:59-66 | inode blocks are distinct and end right before the data region |
| DiskLayout.Macros | inode_manager.h:9-70 | the numbers the macros come to |
| DiskLayout.InodeBytes | inode_manager.h:72-79 | which bytes of its block each field of an inode is, and which bytes a write of it leaves |
| DiskLayout.DecodeEncode | inode_manager.cc:151-177 | what put_inode writes, get_inode reads |
| DiskLayout.EncodeDecode | inode_manager.cc:180-201 | writing an unchanged inode back changes no byte |
| BlockOwnership.AllocatorComplete | inode_manager.cc:37-62 | alloc_block gives the first free data block from `next_block` on, going round, marks only it, keeps `next_block` in the region, and exits only when the region is full |
| BlockOwnership.AllocatesRound | inode_manager.cc:37-48 | from one allocation to the next, going round, every block passed is in use |
| BlockOwnership.GrowAdds | inode_manager.cc:220-223 | growing adds that many fresh distinct blocks at the end and fails if and only if too few are free |
| BlockOwnership.ShrinkDrops | inode_manager.cc:217-219 | shrinking frees exactly the tail of the list |
| BlockOwnership.FillWrites | inode_manager.cc:226-241 | filling puts the kth piece in the kth block and touches no other |
| FileStore.WriteReads | inode_manager.cc:204-247 | after write_file the file reads back exactly, every other file as before, ownership stays exact, unless two files need one table; it fails if and only if blocks are short |
| FileStore.ShortWriteReads | inode_manager.cc:204-247 | up to 51200 bytes a write goes right whatever the other files are |
| FileStore.LongWriteReads | inode_manager.cc:204-247 | up to 116736 bytes it does when no other file is longer than 51200 |
| FileStore.WritePads | inode_manager.cc:226-241 | the last block holds zeros behind the data |
| FileStore.WriteKeepsBlocks | inode_manager.cc:217-223 | a file keeps its blocks as far as it still needs them |
| FileSystem.NthBytes | inode_manager.cc:311-320 | the first 100 block numbers are in the inode, the others four bytes each in the table |
| FileSystem.BlocksForLeast | inode_manager.cc:214-215 | a file has the least number of blocks that hold it |
| FileSystem.WidenedSign | inode_manager.cc:256 | getattr's type keeps the low half of the kind and copies its sign above |
| FileStore.WriteKeepsSound | inode_manager.cc:295-325 | exactly when a write keeps ownership exact |
| FileStore.SharedTable | inode_manager.cc:295-320 | when it does not, the other long file reads, behind its direct blocks, the bytes just written |
| FileStore.WriteTables | inode_manager.cc:295-308 | no write sets a table number |
| FileRuns.SharedTableArises | inode_manager.cc:295-320 | a run from the formatted disk to a state where the next write does so |
| FileStore.RemoveForgets | inode_manager.cc:265-278 | remove_file frees exactly the file's blocks, leaves the others, and exits if and only if the inode is free; only the kind changes |
| FileStore.CreateFresh | inode_manager.cc:108-135 | alloc_inode gives the first free inode of 2..INODE_NUM, from `next_inum` on and going round, an empty file and changes no other; it exits if and only if all are taken; a kind that is 0 as a short leaves it free |
| FileRuns.CreatesRound | inode_manager.cc:112-126 | from one create to the next, going round with the wrap behind INODE_NUM, every inode passed is in use |
| FileRuns.CreatesGoRound | inode_manager.cc:108-135 | the same in runs, whatever was put and removed in between |
| FileRuns.FirstCreateOf | inode_manager.cc:104 | the first create on a formatted disk answers 2 |
| FileRuns.StartSound | inode_manager.cc:71-105 | the formatted disk is sound, and holds an empty root only, when the search begins in the data region and the root's table is before the inodes |
| RootTable.TableExactly | inode_manager.cc:97-103 | exactly for which values of the root's unset table number its puts go right |
| RootTable.OtherInodes | inode_manager.cc:295-308 | a table number among the inodes: a long put to the root brings another inode to life |
| RootTable.OwnInode | inode_manager.cc:169-177 | the root's own inode as its table: the kind is written over a block number |
| RootTable.AmongData | inode_manager.cc:226-241 | a table number among the data: filling the file wipes its table |
| RootTable.PastDisk | inode_manager.cc:13-32 | a table number past the disk: the last block's number is lost |
| FileRuns.FirstBlock | inode_manager.cc:75-77 | exactly when the first block handed out is a data block; otherwise it is an inode's |
| FileRuns.CallMaps | extent_server.cc:17-78 | every create, put and remove is a step of a map from inodes to files |
| FileRuns.RunMaps | extent_server.cc:17-78 | over any run ownership stays exact, and each call does to the map what it should |
| FileRuns.RunRefines | extent_server.cc:17-78 | any run of the disk is a run of the map |
| FileRuns.LastWriteStays | inode_manager.cc:180-278 | a file reads as it was last written, whatever happened to others |
| FileRuns.RemovedStays | inode_manager.cc:137-149 | a removed file stays away, whatever is created, until its inode is given out again |
| InodeManagers.Disk.ReadBlock | inode_manager.cc:20-25 | a block, or the old buffer out of range |
| InodeManagers.Disk.WriteBlock | inode_manager.cc:27-32 | one block changed, none out of range |
| InodeManagers.BlockManager.constructor | inode_manager.cc:71-79 | a blank disk, nothing used, the search where the old memory says |
| InodeManagers.BlockManager.FindFitBlock | inode_manager.cc:37-48 | the least free block of a range is marked, or -1 |
| InodeManagers.BlockManager.AllocBlock | inode_manager.cc:51-62 | next fit, then first fit |
| InodeManagers.BlockManager.FreeBlock | inode_manager.cc:64-68 | one block fewer in use |
| InodeManagers.InodeManager.constructor | inode_manager.cc:95-105 | the start state of the runs |
| InodeManagers.InodeManager.GetInode | inode_manager.cc:151-166 | the inode as its block decodes, or nothing out of range |
| InodeManagers.InodeManager.PutInode | inode_manager.cc:168-177 | the inode over its old bytes |
| InodeManagers.InodeManager.GetNthBlock | inode_manager.cc:311-320 | direct or through the table |
| InodeManagers.InodeManager.ReadNthBlock | inode_manager.cc:281-287 | the bytes of the nth block |
| InodeManagers.InodeManager.WriteNthBlock | inode_manager.cc:289-292 | the nth block replaced |
| InodeManagers.InodeManager.AllocNthBlock | inode_manager.cc:295-308 | a new nth block |
| InodeManagers.InodeManager.FreeNthBlock | inode_manager.cc:322-325 | the nth block freed |
| InodeManagers.InodeManager.ReadFile | inode_manager.cc:180-201 | the first `size` bytes; nothing changes, the write-back included |
| InodeManagers.InodeManager.ReadBlocks | inode_manager.cc:191-196 | the copying loop: byte p comes from block p / 512 |
| InodeManagers.InodeManager.WriteFile | inode_manager.cc:204-247 | the disk after a write, exit included |
| InodeManagers.InodeManager.Resize | inode_manager.cc:214-223 | the freeing and the allocating loop |
| InodeManagers.InodeManager.WriteBlocks | inode_manager.cc:226-241 | the loop over whole blocks and the padded tail |
| InodeManagers.InodeManager.RemoveFile | inode_manager.cc:265-278 | the disk after a remove, exit included |
| InodeManagers.InodeManager.FreeInode | inode_manager.cc:137-148 | the kind set to 0 |
| InodeManagers.InodeManager.AllocInode | inode_manager.cc:108-135 | the two scans, and the wrap of `next_inum` |
| InodeManagers.InodeManager.GetAttr | inode_manager.cc:249-263 | the kind with its sign extended, and the size; nothing out of range |
| ExtentServers.ExtentServer.Create | extent_server.cc:17-24 | the server does to the extents what the cache layer expects of create, fails if and only if inodes are out |
| ExtentServers.ExtentServer.Put | extent_server.cc:26-35 | the disk after any put; for a file that exists and is not the second long one, what the cache layer expects of put, failing if and only if blocks are short |
| ExtentServers.ExtentServer.Get | extent_server.cc:37-55 | the same for get |
| ExtentServers.ExtentServer.GetAttr | extent_server.cc:57-68 | the same for getattr, zeros for a number no inode has |
| ExtentServers.ExtentServer.Remove | extent_server.cc:70-78 | the same for remove; the server exits if and only if there is no such file |
| ExtentServers.CreateStores | extent_server.cc:17-24 | create on the disk as a step of the extents, and when it fails |
| ExtentServers.RootIsDirectory | inode_manager.cc:98 | to the clients the root of the formatted disk is an empty directory |
| ExtentServers.MaskedBits | extent_server.cc:28 | numbers below 2 to the 31 stay, and meet those that far above |
| Directory.UncodeEncode | yfs_client.cc:100-117 | uncode undoes encode for every byte string, bytes from 128 on included; the code has no white space |
| Directory.CodeDigits | yfs_client.cc:106-107 | each byte's two letters are the quotient and remainder by 16 of the signed byte, rounded towards zero |
| Directory.UncodedOdd | yfs_client.cc:114-115 | a code of odd length is read as if a 0 followed |
| Directory.NumberDecimal | yfs_client.cc:23-38 | n2i undoes filename for every 64-bit number |
| Directory.NumberReads | yfs_client.cc:24-30 | what n2i makes of white space, sign, digits and more, out of range and without digits |
| Directory.DecimalShape | yfs_client.cc:33-38 | no leading zeros |
| Directory.ExtractWord | yfs_client.cc:254 | one extraction skips a space, takes a word, and leaves the space after it |
| Directory.ExtractSplits | yfs_client.cc:254 | extraction from any text: white space, a word, what is left |
| Directory.TurnsRepeat | yfs_client.cc:252-254 | at the end of the stream the loop's further turns repeat the last words |
| Directory.TurnsJoined | yfs_client.cc:250-262 | the loop reads joined words in order, its index moving with the stream and ending exactly at the end |
| Directory.ParsePrint | yfs_client.cc:222 | parsing a printed directory gives its entries |
| Directory.ParsePrintExactly | yfs_client.cc:287-298 | it does so if and only if no name is empty |
| Directory.NamesNeverEmpty | yfs_client.cc:252-253 | once a word was read no turn of the loop has an empty name, on any buffer |
| Directory.PrintAppend | yfs_client.cc:222 | what addfile appends is one entry more |
| Directory.UnlinkPrinted | yfs_client.cc:347-363 | unlinking in the text is removing every entry of the name from the list, the rest in order |
| Directory.LookupAdded | yfs_client.cc:213-225 | adding makes a fresh name known and leaves other lookups alone; an older entry of the name wins |
| Directory.AddedFound | yfs_client.cc:213-265 | a fresh name, once added to the text, is found in it with its number |
| Directory.LookupRemoved | yfs_client.cc:340-365 | after unlink the name is unknown and other lookups are as before |
| Directory.WithoutAdded | yfs_client.cc:340-365 | unlinking a freshly added name restores the directory |
| Directory.DirectoryRuns | yfs_client.cc:213-365 | over any run of adds and unlinks the bytes are the printed list and read back as it |
| FileBytes.PortionIsRange | yfs_client.cc:302-319 | read gives the part of the range the file has, negative offsets and 64-bit wrap included |
| FileBytes.RewrittenIs | yfs_client.cc:329-334 | write throws if and only if the offset is negative or the end beyond the longest string; otherwise 64-bit wrap makes no difference |
| FileBytes.WrittenAt | yfs_client.cc:329-334 | after write each byte is new in the range, old outside it, 0 in a gap |
| FileBytes.ReadBack | yfs_client.cc:302-338 | what was written is read |
| FileBytes.ReadApart | yfs_client.cc:302-338 | a range apart reads as before, but for zeros in a gap |
| FileBytes.WritesApart | yfs_client.cc:321-338 | writes to ranges apart commute |
| FileBytes.LengthExactly | yfs_client.cc:200-209 | setattr yields exactly the requested length if and only if the cached size suits the data |
| FileBytes.LengthenedAt | yfs_client.cc:205-208 | with the right cached size: the old bytes up to the new length, then zeros |
| YfsClients.YfsClient.Encode | yfs_client.cc:100-110 | the loop computes the code |
| YfsClients.YfsClient.Uncode | yfs_client.cc:111-117 | the loop computes the decoding, odd lengths included |
| YfsClients.YfsClient.Setattr | yfs_client.cc:191-211 | the data is cut or lengthened by the known size, right or wrong; the requested length exactly when that suits |
| YfsClients.YfsClient.Read | yfs_client.cc:302-319 | the part of the range, the data unchanged, whatever size is cached |
| YfsClients.YfsClient.Write | yfs_client.cc:321-338 | client and, after the flush, server hold the written file; when it throws, exactly for bad offsets, nothing is put; a removed file is removed at the server |
| YfsClients.YfsClient.Splice | yfs_client.cc:330-334 | resize and replace in 64-bit arithmetic |
| YfsClients.YfsClient.AddFile | yfs_client.cc:213-225 | a new empty extent, and one entry more in the parent |
| YfsClients.YfsClient.Create | yfs_client.cc:227-231 | a new empty file, of type 2 |
| YfsClients.YfsClient.Mkdir | yfs_client.cc:233-237 | a new empty directory, of type 1 |
| YfsClients.YfsClient.Find | yfs_client.cc:238-265 | the first entry of the name in any buffer, IOERR without one, EXIST if no directory |
| YfsClients.YfsClient.Search | yfs_client.cc:250-264 | its loop, on any buffer, against the parse |
| YfsClients.YfsClient.ReadDir | yfs_client.cc:274-300 | the parse of any buffer, EXIST if no directory |
| YfsClients.YfsClient.Listed | yfs_client.cc:287-298 | its loop, on any buffer |
| YfsClients.YfsClient.Unlink | yfs_client.cc:340-365 | the matching extents removed, the other entries kept, ENOENT and no put without a match |
| YfsClients.YfsClient.TakeOut | yfs_client.cc:347-359 | its loop, on any buffer: what is kept, what is removed |
| YfsClients.UnlinkedInums | yfs_client.cc:352-355 | on a printed directory the extents removed are those of the entries of the name |
| YfsUses.LooksUpInRoot | yfs_client.cc:238-272 | a new client finds exactly the names of the root, if the server says it is of type 1 |
| YfsUses.MadeIsFound | yfs_client.cc:213-300 | a file, once made, is found and listed by the client that made it |
| YfsUses.MadeDirectoryIsEmpty | yfs_client.cc:233-300 | a directory, once made, is searched and listed, and empty |
| YfsUses.FileIsNoDirectory | yfs_client.cc:227-300 | find and readdir answer EXIST on a file |
| YfsUses.UnlinkedIsGone | yfs_client.cc:238-365 | a name, once unlinked, is not found |

## Left out

- RPC transport, binding, ports, failures and crashes: calls arrive once, in any order, and always succeed; the code has no recovery.
- The real server waits for its revoke or retry call to return before it answers; the model lets reply and call arrive in either order, which allows more runs.
- Threads of a client are a bag, so which sleeping thread a signal wakes is left open; no order among them is claimed.
- Calls of the extent cache and of the extent server are single steps in `coherence.dfy`; the cache's `create` takes no mutex, and is not among the accesses there.
- Extents touched without their own lock: `create` of the child in addfile and `remove` of the child in unlink. Coherence covers accesses under the extent's own lock, and attribute probes.
- flush of a removed extent calls the remove RPC with one argument too few (extent_client_cache.cc:187); the intended remove is modelled.
- The attribute type after a put on an uncached extent is a parameter; nothing is claimed about it.
- ExtentServers.ExtentServer.Put: for a number that holds no file only the disk's next state is given; the source then writes blocks that belong to no file. At most 228 blocks, as for write_file.
- InodeManagers.InodeManager.WriteFile: asks for at most 228 blocks; the source checks nothing and writes behind the table on its stack, which has no meaning to model.
- ExtentServers.ExtentServer.constructor: asks for what `FileRuns.StartSound` shows to be needed for a sound disk.
- InodeManagers.BlockManager.ReadBlock: a block out of range leaves uninitialised bytes; zeros stand for them.
- The 32-bit width of `attr.size`, which cuts the length of data of 4 GiB and more.
- DiskCoherence.DiskCoherent: speaks of flushes of files that exist and meet the limits on files. A flush to a removed number fills blocks of the freed inode's old list, which may be lost or belong to other files by then; a second long file shares a table; on a full disk the server exits.
- DiskCoherence.MadeCoherent: asks that nobody got or put the number's extent between a moment when it was idle and its creation; a client that holds the lock and reads a removed extent may keep what it was answered.
- Lock acquire and release around the file system operations: each method of `YfsClient` is the body between them; `atomicity.dfy` proves what the lock adds, for an operation that reads and puts back.
- symlink, readlink, getfile, getdir, isfile and the constructor of yfs_client: short compositions of calls that are modelled.
- Times (atime, mtime, ctime), log files, printf, malloc and free, the `stat` counter, `handle.cc`, `fuse.cc`, the main programs, and the simple lock server and clients.
