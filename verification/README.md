# Verified model of the Gitopia storage provider

The Gitopia storage provider keeps git repositories, release assets and LFS
objects of the Gitopia chain on disk and in external storage, serves pushes to
them, merges pull requests, answers storage challenges and reports what changed
back to the chain. This project models its stateful and algorithmic parts in
Dafny and proves what they keep over whole runs.

| module | models |
|---|---|
| `KeyedLocks` | the keyed, reference-counted read/write locks, with their clean-up timers, as a transition system of atomic steps |
| `MergeWorkers` | the pool of merge workers, its semaphore and its two nested repository locks |
| `LfsDownload` | the double-checked download of an LFS object by concurrent callers |
| `CommitGraph`, `PushHooks` | commit ancestry, merge bases, and the receive hooks as a protocol over refs |
| `CacheEviction` | the three clearing passes over the caches |
| `MerkleProof` | chunking, the Merkle tree over chunk hashes, and challenge proofs |
| `ForkCache` | downloading a repository together with its fork parents |
| `RefSync` | writing the chain's refs into a repository, batch and one by one |
| `Pins` | the event handlers that keep external pins in step with reference counts |
| `ReleaseDiff` | the asset updates proposed for a release event |
| `TxBatch` | the queue of chain messages and its batches |
| `StorageFee` | the storage charge, including wrap-around and float rounding |
| `Pagination` | page keys and pages of trees, diffs and commits |
| `PendingUploads` | unclaimed uploads, their files and their clean-up |
| `Wrappers`, `Arithmetic` | results that can fail; products and quotients |

Components that run concurrently are transition systems: a state holds the
program counter of every goroutine and the shared memory, an action is one atomic
step, and the theorems are about every run. Components that change state one call
at a time are classes whose methods are proved against specification functions;
the theorems are about those functions. Clocks, randomness, git, IPFS and chain
queries enter as parameters: what a query answers, which contents can be fetched,
which removals fail.

Verify everything with `dafny verify dfyconfig.toml`.

Where the code differs from its comments or documentation the model follows the
code. A lemma says exactly when the documented behaviour holds, and another names
an input with which it does not:

- The clean-up timers of the locks delete their entry whatever happened since,
  although the comment says "if no activity" (`KeyedLocks.ReaperSafeIff`,
  `RudeReaperBreaksExclusion`).
- Eviction does not take the lock of what it removes (`KeyedLocks.HolderCameLater`,
  `RemovalCanHitHolder`).
- Protection against force pushes is looked up for the part of the branch name
  before the first slash (`PushHooks.NonFastForwardAcceptedIff`, `SlashBranchRewound`).
- Replacing a branch by an unrelated history writes no dangling ref
  (`PushHooks.PushPreservesIff`, `UnrelatedReplacementLoses`).
- LFS clearing sorts a list that still has the entries its age pass removed
  (`CacheEviction.SortedIff`, `LfsOrderCanFail`).
- Reference counts that go from zero to two in one event never lead to a pin
  (`Pins.EventAgreesIff`, `TwiceTheSameFile`).
- A changed release file whose content id stays the same is not proposed
  (`ReleaseDiff.UpdateReachesRequestIff`, `SameCidKeepsOldHash`). Content ids are
  made from hashes of the content, so this takes two files with one hash
  (`ReleaseDiff.ContentIdsReachRequest`).
- Messages queued after Stop wait for a tick that need not come
  (`TxBatch.StopFlushesIff`, `LateMessageWaits`).
- Usage that shrinks above the free limit is charged for the wrapped difference
  (`StorageFee.ChargeIsGrowthIff`, `ShrinkingIsCharged`).
- Offset pages over trees and diffs name the index after the next one
  (`Pagination.EntryChainCoversIff`, `EntryChainSkipsOne`).
- Commit pages whose offset and limit add up to 2^64 or more lead backwards
  (`Pagination.CommitChainCoversIff`, `CommitsRepeat`).
- An upload that expires at the instant of a cleaning is kept, its file may not be
  (`PendingUploads.KeptLosesFileIff`, `KeptUploadLosesFile`), and a cleaning may
  take the file of an upload that is not recorded yet (`PendingUploads.LiveKeepFilesIff`,
  `CleanupBetweenHalves`).

## Model

| member | source | states |
|---|---|---|
| `KeyedLocks.SessionStepKeepsInv` | utils/cache.go:189-247 | Every atomic step of a Lock/Unlock or RLock/RUnlock bracket (lookup, count, acquire, second lookup, check, release, uncount) keeps the invariant: counters equal the sessions waiting, holding or releasing, the mutex word equals its holders, every session uses the mutex now in the table. |
| `KeyedLocks.ReaperSafeIff` | utils/cache.go:205-213 | The clean-up timer, which deletes unconditionally although its comment says "if no activity", keeps the invariant if and only if no session refers to the entry. |
| `KeyedLocks.RunsKeepInv` | utils/cache.go:189-256 | The invariant holds in every state of every run in which the reaper fires on unreferenced entries only. |
| `KeyedLocks.WriterIsAlone` | utils/cache.go:189-247 | Over every interleaving two sessions that hold the same key at once are both readers. |
| `KeyedLocks.CountsAreUsers` | utils/cache.go:189-247 | At any time the read (write) count of a key is the number of sessions waiting for, holding or releasing it in that mode. |
| `KeyedLocks.AcquireEnabledIff` | utils/cache.go:189-225 | At any time a waiting session can go on if and only if nobody holds its key, or it and all the holders are readers. |
| `KeyedLocks.UnlockIsEffective` | utils/cache.go:197-247 | No unlock by a holder is a no-op and none is fatal: its second lookup finds its own mutex and changes nothing, the count check lets it through, and the release takes exactly this hold off that mutex and leaves every other mutex and session as it was. |
| `KeyedLocks.UserIsStable` | utils/cache.go:189-247 | While a session stays counted for a key its mode and its mutex do not change. |
| `KeyedLocks.CleanupScheduledIff` | utils/cache.go:197-247 | In every state of every run a step schedules a clean-up of its key exactly when a last writer leaves, or a last reader that then finds no writer waiting, holding or releasing. |
| `KeyedLocks.NoEntryForgotten` | utils/cache.go:197-247 | At any time each key of the table has a session in its bracket or a clean-up that is still to come. |
| `KeyedLocks.InUseQuery` | utils/cache.go:250-256 | The in-use query reads table, read count and write count at three different times; if some session uses the key throughout, the answer is still "in use". |
| `KeyedLocks.HolderCameLater` | utils/cache_manager.go:132-267 | Eviction removes an entry without its lock some time after the query said "not in use": whoever holds the key at the removal counted itself in after the query began and has stayed since. |
| `KeyedLocks.RemovalCanHitHolder` | utils/cache_manager.go:132-267 | Nothing more is guaranteed: every run that ends with the key free can go on so that a new session holds it before the removal. |
| `KeyedLocks.RudeReaperBreaksExclusion` | utils/cache.go:205-213 | Without the hypothesis on the reaper: a legal run at whose end two sessions hold the same key as writers. |
| `MergeWorkers.StepKeepsInv` | handler/mergePullRequest.go:124-179 | Every step of a worker keeps: the lock table says exactly who holds base and head, at most three workers are past the semaphore, each event has been handed to Process at most once. |
| `MergeWorkers.DeadlockIsForever` | handler/mergePullRequest.go:153-179 | A set of workers each blocked on a lock of another member stays blocked under every schedule, so the pool never finishes. |
| `MergeWorkers.StuckIsDeadlocked` | handler/mergePullRequest.go:124-179 | When nothing can move and somebody is unfinished, all workers past the semaphore form such a set. |
| `MergeWorkers.PairDeadlocks` | handler/mergePullRequest.go:168-178 | Two pull requests in opposite directions can reach a deadlock. |
| `MergeWorkers.RingDeadlocks` | handler/mergePullRequest.go:168-178 | Three pull requests in a ring can reach a deadlock. |
| `MergeWorkers.DeadlockFreeIff` | handler/mergePullRequest.go:124-179 | For every list of events the pool is free of deadlock if and only if no two of the pull requests it handles are opposite and no three form a ring; acyclicity is sufficient, longer cycles are harmless because of the limit of three. |
| `MergeWorkers.RunsAreBounded` | handler/mergePullRequest.go:124-149 | Every schedule is finite: each step lowers the work left. |
| `MergeWorkers.ProcessedOnce` | handler/mergePullRequest.go:132-149 | Under any schedule an event is handed to Process at most once, and exactly once when its goroutine is done. |
| `MergeWorkers.WorkingIsExclusive` | handler/mergePullRequest.go:153-179 | Under any schedule two workers that are at their pull requests at once have no repository in common. |
| `MergeWorkers.MaximalRunsProcessAll` | handler/mergePullRequest.go:124-149 | Without a short cycle every schedule that runs until nothing is enabled ends with every event processed exactly once, within seven steps per event. |
| `LfsDownload.StepKeepsInv` | utils/cache.go:745-795 | Every step of a check or a download keeps: the lock is exclusive, whoever saw the file absent under the write lock still does, a half-written file has its writer at work or a failed write behind it. |
| `LfsDownload.CreatedAtMostOnce` | utils/cache.go:758-795 | Over every interleaving of callers of one OID the file is created at most once, and exactly once when it exists. |
| `LfsDownload.CheckAnswers` | utils/cache.go:745-756 | While a check still holds the read lock its answer is right: it says yes if and only if there is a file. |
| `LfsDownload.LoadCanFinish` | utils/cache.go:758-795 | From every state in which nobody is at the object, an undisturbed download in which nothing fails returns nil; it creates the whole file exactly when there was none. |
| `LfsDownload.ReadersSeeWholeFiles` | utils/cache.go:745-756 | As long as no write failed, no holder of the read lock sees a half-written file. |
| `LfsDownload.LoadedMeansComplete` | utils/cache.go:745-795 | After a download that returned nil, and under a check that answered yes, the file is complete if and only if no write has failed so far. |
| `LfsDownload.FailedWriteIsReportedCached` | utils/cache.go:745-795 | Such a run: a write fails and a later check reports the truncated file as cached. |
| `CommitGraph.MergeBaseExists` | hooks/utils/input.go:81-96 | On every acyclic history there is an answer that git merge-base may give. |
| `CommitGraph.MergeBaseIsOldIff` | hooks/utils/input.go:81-96 | Whichever best common ancestor is printed, it is the old tip exactly when the old tip is an ancestor of the new one. |
| `PushHooks.ParseBranchLine` | hooks/utils/input.go:35-78 | Parsing a hook line gives back its three fields; the branch name is the whole name only if it has no slash, otherwise the part up to the first slash. |
| `PushHooks.ParseOkIff` | hooks/utils/input.go:35-67 | A line is accepted exactly when it has two spaces and its last field two slashes or more. |
| `PushHooks.IsForcePushIff` | hooks/utils/input.go:81-96 | For any answer of merge-base: an error exactly for unrelated histories, false exactly when the old tip is an ancestor of (or equal to) the new one. |
| `PushHooks.VerdictIff` | hooks/gitopia-pre-receive/main.go:15-46 | For every legal push and query answer: an error exactly when the query fails or a protected branch gets an unrelated history; a refusal exactly when a protected branch would move to a related tip that does not descend from the old one; so creations, deletions and fast-forwards are accepted. |
| `PushHooks.AcceptedRefs` | hooks/gitopia-post-receive/main.go:13-50 | An accepted push moves, creates or deletes its own ref, and adds refs/dangling/ with the old tip exactly for a deletion and for a related tip that does not descend from it. |
| `PushHooks.Repository.RunPostReceive` | hooks/gitopia-post-receive/main.go:13-50 | The hook leaves the refs as the decision function PostReceive says: a dangling ref on force push or delete, else nothing. |
| `PushHooks.Repository.ReceivePack` | hooks/gitopia-pre-receive/main.go:15-46 | One push: pre-receive decides, then ref and dangling ref change as Pushed says, or nothing does. |
| `PushHooks.PushPreservesIff` | hooks/gitopia-post-receive/main.go:13-50 | A push keeps every reachable commit reachable if and only if old and new tip are related or another ref or dangling ref reaches the old tip. |
| `PushHooks.UnrelatedReplacementLoses` | hooks/gitopia-post-receive/main.go:13-50 | Such a push: a branch that may be force pushed is replaced by another first commit, and its old tip is reachable no more. |
| `PushHooks.HistoryIsPreserved` | hooks/gitopia-post-receive/main.go:13-50 | Over any run of pushes in which every replacement by an unrelated history leaves the old tip reachable elsewhere, whatever was reachable at one time stays reachable at every later time, through fast-forwards, force pushes and deletions. |
| `PushHooks.NonFastForwardAcceptedIff` | hooks/gitopia-pre-receive/main.go:15-46 | A non-fast-forward update of a branch is accepted exactly when the query succeeds and the chain does not protect the part of its name before the first slash. |
| `PushHooks.SlashBranchRewound` | hooks/gitopia-pre-receive/main.go:15-46 | Such an update, for any protected branch with a slash: it is accepted and takes the branch from its tip back to the parent. |
| `PushHooks.ProtectedBranchMovesForward` | readme.md:684-685 | Over every run, failed queries and lines that cannot be parsed included, a branch without a slash that the chain knows without AllowForcePush moves forward in ancestry only, from its creation to its deletion. |
| `CacheEviction.WalkIsLeafSum` | utils/cache_manager.go:464-476 | The walk returns the sum of all file sizes, and fails exactly when some entry cannot be read. |
| `CacheEviction.CacheDir.AgePass` | utils/cache_manager.go:132-267 | The age loop removes exactly the expired removable entries and its running total is the size of the other eligible ones. |
| `CacheEviction.CacheDir.SortSlice` | utils/cache_manager.go:269-353 | Sorting permutes the entries, and orders them by age exactly when no entry without Info() is listed between a younger one and an older one after it. |
| `CacheEviction.CacheDir.SizePass` | utils/cache_manager.go:132-267 | The size loop removes the removable entries of a prefix of the order, the shortest one that makes the total fit. |
| `CacheEviction.CacheDir.ClearRepositoryCache` | utils/cache_manager.go:132-267 | Repository clearing is an age pass and then a size pass in age order. |
| `CacheEviction.CacheDir.ClearAssetCache` | utils/cache_manager.go:355-461 | Asset clearing is an age pass and then a size pass in age order. |
| `CacheEviction.CacheDir.ClearLfsCache` | utils/cache_manager.go:269-353 | LFS clearing is an age pass and then a size pass; the size pass goes by age exactly when, in the listing by name, no entry without Info() after the age pass stands between a younger one and an older one after it. |
| `CacheEviction.OthersUntouched` | utils/cache_manager.go:132-461 | What clearing leaves was there before and is unchanged; it leaves everything that is in use, has no Info(), is not a directory with the name of a repository, or not a file (assets, LFS objects). |
| `CacheEviction.RepositoryInUseStays` | utils/cache_manager.go:146-163 | The directory named by the decimal digits of the id of a repository in use, with its suffix, survives unchanged. |
| `CacheEviction.RepoIdIff` | utils/cache_manager.go:146-151 | A name stands for a repository exactly when it is a decimal number below 2^64, leading zeros allowed, with or without the suffix; no name stands for two. |
| `CacheEviction.EligibleIff` | utils/cache_manager.go:132-461 | An entry is up for clearing exactly when it is a directory named for a repository (or a file, for assets and LFS objects), its Info() works, and it is not in use. |
| `CacheEviction.CandidateIff` | utils/cache_manager.go:132-461 | The entries that count for the limit are those up for clearing other than unreadable directories; a directory counts with the sum of its files. |
| `CacheEviction.ExpiredGone` | utils/cache_manager.go:132-461 | Every entry past its age that nothing protects and that can be removed is gone. |
| `CacheEviction.YoungGoForSpace` | utils/cache_manager.go:132-461 | A younger entry is removed only for space: with the last entry removed put back the limit would be exceeded. |
| `CacheEviction.LimitMissedBy` | utils/cache_manager.go:132-461 | After any clearing the eligible total is within the limit plus the size of the expired entries that could not be removed, or all that is left of it resisted removal. |
| `CacheEviction.WithinLimit` | utils/cache_manager.go:132-461 | With no failed age removal the eligible total is within the limit, or all that is left of it resisted removal. |
| `CacheEviction.EvictedAreOldest` | utils/cache_manager.go:132-267 | In age order nothing removable that is left is older than anything evicted by size. |
| `CacheEviction.EvictionIsShortest` | utils/cache_manager.go:132-461 | With the last evicted entry put back the total exceeds the limit; in age order that entry is the youngest evicted one. |
| `CacheEviction.StuckAgeMissesLimit` | utils/cache_manager.go:355-461 | Such a directory: an expired entry that cannot be removed is not counted, so the limit is missed although the size pass could have made room. |
| `CacheEviction.ComparatorConsistentIff` | utils/cache_manager.go:269-353 | The LFS comparator is a consistent order exactly when all Info() calls work or the entries they work for have one age. |
| `CacheEviction.OneListing` | utils/cache_manager.go:269-353 | A directory has one listing by name. |
| `CacheEviction.SortedIff` | utils/cache_manager.go:269-353 | For every listing: it comes out in age order if and only if no entry without Info() stands in it between a younger entry and an older one after it. |
| `CacheEviction.SortsEveryListingIff` | utils/cache_manager.go:269-353 | A set of names comes out in age order in whatever order it is listed, if and only if the comparator is consistent on it. |
| `CacheEviction.LfsOrderCanFail` | utils/cache_manager.go:269-353 | Such a directory: with an entry removed by age in between, LFS clearing evicts a young object and keeps an old removable one. |
| `MerkleProof.ChunksCover` | pkg/merkleproof/merkleproof.go:19-63 | There are ceil(size / chunk) chunks, all full but a non-empty last one, and they concatenate to the file. |
| `MerkleProof.HashChunks` | pkg/merkleproof/merkleproof.go:36-63 | The loop over its one reused buffer ends with the hashes of exactly those chunks, or fails when the file is shorter than it said. |
| `MerkleProof.ComputeChunkHashes` | pkg/merkleproof/merkleproof.go:19-63 | The chunk hashes, or an error for an unknown size, an empty file and a short read. |
| `MerkleProof.ComputeMerkleRoot` | pkg/merkleproof/merkleproof.go:69-87 | The root over the chunk hashes of the file. |
| `MerkleProof.GenerateProof` | pkg/merkleproof/merkleproof.go:90-114 | The proof of the looked-up chunk hash, the root of the same file and that hash; an index past the last chunk stops it. |
| `MerkleProof.TreeProofVerifies` | pkg/merkleproof/merkleproof.go:90-134 | A proof generated for any entry of any tree verifies against its root. |
| `MerkleProof.ProofAtVerifies` | pkg/merkleproof/merkleproof.go:90-134 | So does the path from any position of a tree, even where an equal entry stands before it. |
| `MerkleProof.ChallengeProofComplete` | pkg/merkleproof/merkleproof.go:69-134 | A proof exists for exactly the chunk indices of a readable non-empty file; it verifies against the root of that file and its index names the first chunk of equal hash. |
| `MerkleProof.SameRootSameLeaf` | pkg/merkleproof/merkleproof.go:116-134 | Two verifications along the same path to the same root are of the same leaf, or hash two different inputs to the same value at some level. |
| `MerkleProof.ChallengeProofSound` | pkg/merkleproof/merkleproof.go:116-134 | No other leaf verifies at the index of a generated proof with a proof of that length, up to a collision of the tree hash. |
| `MerkleProof.AnyProofIsOfTheTree` | pkg/merkleproof/merkleproof.go:116-134 | Any proof of any length that verifies a digest against the root of a tree has the length of the height and is for the entry at its index modulo the width, unless one of its inputs hits a value of the tree. |
| `MerkleProof.OnlyChunksVerify` | pkg/merkleproof/merkleproof.go:69-134 | Any proof that verifies a chunk hash against the root of a file is for the chunk of that file at its index modulo the width, under the same hypothesis. |
| `MerkleProof.ResponseIsAccepted` | handler/challenge.go:163-180 | The responder submits exactly when its file is readable and not empty, has the challenged chunk and has the challenged root; what it submits verifies against that root. |
| `MerkleProof.ResponseIsForChunk` | handler/challenge.go:150-180 | What is submitted is the hash of the challenged chunk of the file, and the index of the proof is that of the first chunk with that hash. |
| `MerkleProof.SameRootSameEntry` | pkg/merkleproof/merkleproof.go:116-134 | Two trees of one root agree position by position, unless a proof of the one hits a value of the other with another input. |
| `MerkleProof.ForeignResponse` | handler/challenge.go:150-180 | A responder with another file of the challenged root submits the hash of the challenged chunk of the original, under the same hypothesis. |
| `ForkCache.ChainEnds` | utils/cache.go:326-392 | On an acyclic fork relation every chain of parents ends within as many steps as there are repositories. |
| `ForkCache.ParentIsShallower` | utils/cache.go:326-392 | The recursion goes to a repository with a strictly shorter chain. |
| `ForkCache.Cache.DownloadRepositoryPackfile` | utils/cache.go:326-392 | It terminates; success leaves the ancestor chain downloaded and linked by alternates, up to the first repository whose packfile is empty; the cache stays closed under parents even when it fails half way; only the chain of the repository is touched; it succeeds when the chain can be had. |
| `ForkCache.Cache.CacheParent` | utils/cache.go:340-372 | After it the parent chain is complete, whether it was cached or had to be downloaded. |
| `ForkCache.Cache.DownloadPackfile` | utils/cache.go:394-447 | Adds exactly this packfile, and completes the chain when the parents are complete. |
| `ForkCache.Cache.CachePackfile` | utils/cache.go:307-324 | Caching a repository whose packfile is there or empty succeeds and changes nothing, otherwise it downloads; success means a complete chain. |
| `ForkCache.PackfileCachedIff` | utils/cache.go:276-304 | The check fails exactly with the query, and answers yes exactly for a packfile that is empty or in the object directory. |
| `ForkCache.WholeChain` | utils/cache.go:326-392 | In a complete chain every repository below the first empty one is there with its packfile and linked to its parent. |
| `ForkCache.StillClosed` | utils/cache.go:276-392 | Initialising, linking or completing one directory keeps the cache closed under parents. |
| `RefSync.RefStore.SyncRefsIndividually` | utils/cache.go:609-677 | The loop leaves each valid ref at its commit and returns the refs that failed, in order. |
| `RefSync.RefStore.UpdateRefs` | utils/cache.go:563-606 | A transaction writes all commands it receives or none. |
| `RefSync.RefStore.SyncRefsWithUpdateRef` | utils/cache.go:536-606 | The batch with its fallback: refs and failed list are those of the individual loop, except that a transaction accepted without an error leaves what git received and reports no failure; for any lists, and whatever becomes of starting git, writing to it and reading from it. |
| `RefSync.BatchIsIndividual` | utils/cache.go:536-677 | An accepted transaction of all commands does what the individual updates would do, none of which would fail. |
| `RefSync.LoopOverwrites` | utils/cache.go:583-605 | Falling back after a part of the commands was committed ends as the individual loop alone. |
| `RefSync.BatchAgreesIff` | utils/cache.go:536-677 | With distinct names the batch ends in the same store with the same failed list as the individual loop, if and only if every command that was lost on the way to an accepted transaction is valid and names the commit its ref already had; nothing is lost when all commands are written. |
| `RefSync.SyncedBranches` | utils/cache.go:536-677 | With distinct names every valid branch ends under refs/heads/ at the commit the chain names. |
| `RefSync.SyncedTags` | utils/cache.go:536-677 | With distinct names every valid tag ends under refs/tags/ at the commit the chain names. |
| `RefSync.UnsyncedRefs` | utils/cache.go:536-677 | A ref the chain does not know, or knows with an invalid commit only, is unchanged. |
| `RefSync.FailuresAreInvalid` | utils/cache.go:609-677 | The failed list names exactly the invalid branches as branch:name and the invalid tags as tag:name. |
| `Pins.Handlers.ProcessPackfileUpdated` | handler/packfileUpdated.go:149-241 | Pin and unpin effects of a packfile event and its error, as AfterPackfile gives them. |
| `Pins.Handlers.ProcessReleaseAssetsUpdated` | handler/releaseAssetsUpdated.go:124-246 | Effects of the loop over all asset updates of an event, as AfterAssets gives them. |
| `Pins.Handlers.ProcessLfsObjectUpdated` | handler/lfsObjectUpdated.go:135-218 | Effects of an LFS event, as AfterLfs gives them. |
| `Pins.Handlers.ProcessRepositoryDeleted` | handler/repositoryDeleted.go:144-211 | Effects of unpinning packfile, assets and LFS objects of a deleted repository, as AfterDeleted gives them. |
| `Pins.PackfileReconciled` | handler/packfileUpdated.go:149-241 | A packfile event pins only contents with one reference, unpins only contents with none, and settles every content it adds or removes. |
| `Pins.AssetsReconciled` | handler/releaseAssetsUpdated.go:124-246 | The same for any list of asset updates handled one after the other. |
| `Pins.ContentsReconciled` | handler/repositoryDeleted.go:144-211 | The same for any list of contents of a deleted repository. |
| `Pins.ContentsCounted` | handler/repositoryDeleted.go:144-211 | The contents that the handler goes through are all the references a deleted repository had: its packfile, every asset, every LFS object. |
| `Pins.DeletedUnpins` | handler/repositoryDeleted.go:144-211 | With nothing failing exactly these names are unpinned: the packfile, each release asset and each LFS object of the repository whose content has no reference left. |
| `Pins.EventAgreesIff` | handler/packfileUpdated.go:149-241 | After any event handled without failures the pinned names are again exactly those of the referenced contents, if and only if no content went from no reference to two or more. |
| `Pins.RunAgrees` | handler/lfsObjectUpdated.go:135-218 | Over any run of events of the four kinds without such a jump the external set equals the referenced contents after every event. |
| `Pins.TwiceTheSameFile` | handler/releaseAssetsUpdated.go:124-246 | The condition is needed: a release with one file under two names leaves its content referenced and never pinned. |
| `ReleaseDiff.BuildUpdates` | handler/release.go:215-418 | The three event kinds build the lists UpdatesFor describes, in whatever order the map is ranged over. |
| `ReleaseDiff.DetectChanges` | handler/release.go:320-376 | The loop over the attachments appends one update for each new or changed ready file, none otherwise. |
| `ReleaseDiff.UpdateNamesDistinct` | handler/release.go:299-376 | The updates of an update event have distinct names. |
| `ReleaseDiff.UpdatesMatch` | handler/release.go:299-418 | Every OldCid and OldSha256 of an update or delete event is that of the current asset. |
| `ReleaseDiff.UpdatesCarryFile` | handler/release.go:230-418 | Every update of any event carries name, hash and size of one attachment with the content id and merkle root of that hash, or is the bare deletion of an asset the event does not ask for; create events name no old content. |
| `ReleaseDiff.UpdateReachesRequestIff` | handler/release.go:299-376 | Applying the updates gives exactly the requested release, with names whose pin or root failed as they were, if and only if no changed file got the content id of its old version. |
| `ReleaseDiff.ContentIdsReachRequest` | handler/release.go:299-376 | When content ids name contents, that is, the id is determined by the hash and different hashes have different ids, applying the updates always gives exactly the requested release. |
| `ReleaseDiff.SameCidKeepsOldHash` | handler/release.go:345-359 | Only two contents with one id defeat it: the file then keeps its old hash. |
| `ReleaseDiff.CreateReachesRequest` | handler/release.go:230-271 | Applying the updates of a create event to an empty release gives the requested files. |
| `ReleaseDiff.DeleteRemovesAll` | handler/release.go:408-418 | Applying the updates of a delete event leaves no asset. |
| `TxBatch.BatchTxManager.AddToBatch` | app/batch_tx_manager.go:43-49 | Appends to the queue, in the spare cells of the same backing array when they suffice; the arrays of the batches in flight keep their contents, which are the batches of the run. |
| `TxBatch.BatchTxManager.ProcessBatch` | app/batch_tx_manager.go:62-78 | Hands over a fresh copy of all queued messages and empties the queue over the same backing array, or does nothing on an empty queue; no cell of the queue or of a batch in flight changes. |
| `TxBatch.NothingLost` | app/batch_tx_manager.go:36-87 | For every interleaving of additions, ticks and stops, the batches in take order followed by the queue are all added messages in order. |
| `TxBatch.NoEmptyBatch` | app/batch_tx_manager.go:62-68 | No batch is empty. |
| `TxBatch.BatchesAreFinal` | app/batch_tx_manager.go:62-87 | Over any later events the list of batches only grows at its end. |
| `TxBatch.EachInOneBatch` | app/batch_tx_manager.go:36-87 | Every added message is in exactly one cell of one batch, or in its place in the queue and in no batch. |
| `TxBatch.StopFlushesIff` | app/batch_tx_manager.go:36-60 | The first Stop hands over all that was added before it; with any later events all is handed over if and only if a tick follows each message that was added after it. |
| `TxBatch.LateMessageWaits` | app/batch_tx_manager.go:36-49 | Such a run: a message added after Stop is in no batch and stays in the queue. |
| `StorageFee.FloatFloor` | utils/storage_fee.go:37-60 | Rounding to a 64-bit float, dividing and truncating gives the whole GiB of any 64-bit size, or one more exactly where the float rounds up to it; never below 2^53. |
| `StorageFee.GrowthIs` | utils/storage_fee.go:18-67 | The free limit is that many MiB of 2^20 bytes, modulo 2^64; growth is what lies above both it and the current usage; the answer repeats both usages and the limit. |
| `StorageFee.ChargeIsGrowthIff` | utils/storage_fee.go:18-67 | For all 64-bit inputs the charge is the price times the whole GiB of growth above the free limit, if and only if the price is zero, or usage did not shrink above the limit and no rounding up occurs, or the wrapped difference is below one GiB. |
| `StorageFee.ShrinkingIsCharged` | utils/storage_fee.go:18-40 | Going back from 2 GiB to 1 GiB without a free limit is charged the price of 2^34 - 1 GiB. |
| `StorageFee.SteppingSaves` | utils/storage_fee.go:18-67 | Over any non-decreasing run below 2^53 the sum of charges is at most the charge for one step and below it by at most (k - 1) times the price, k being the steps with billable growth. |
| `StorageFee.SmallStepsAreFree` | utils/storage_fee.go:18-67 | Growth in steps of less than one GiB is never charged, however much it comes to. |
| `Pagination.UInt64ToBytes` | utils/common.go:5-9 | The eight bytes written are the big-endian digits of the number. |
| `Pagination.BytesToUInt64` | utils/common.go:11-13 | The number read is the one whose digits are the first eight bytes. |
| `Pagination.KeyRoundTrip` | utils/common.go:5-13 | Encoding and decoding page keys are inverse to each other, both ways. |
| `Pagination.PaginateEntries` | utils/content.go:102-187 | A page delivers the items of its index range in order up to the first failing one, and the response only if none fails; with its next key as Plan says. |
| `Pagination.EntriesByOffset` | utils/diff.go:188-214 | The offset loop shows the range before offset + limit and names the index after the first one not shown, with both sums wrapping around. |
| `Pagination.PaginateCommitHistory` | utils/commits.go:84-192 | The same contract for commits listed by skip and count, for all 64-bit requests: both numbers are converted to int, the sum wraps around. |
| `Pagination.PlanFailsIff` | utils/content.go:110-127 | A request fails exactly when it has an offset and a key, even an empty one, or a key of one to seven bytes; no request at all is a request. |
| `Pagination.PlanTotal` | utils/content.go:129-187 | The total is the number of items exactly for whoever asks for it; for trees and diffs never with a key, and without one also for requests without a limit. |
| `Pagination.PlanShows` | utils/content.go:134-187 | With numbers that do not overflow a page begins at the key or offset, shows as many items as limit or default limit allow, and its next index is the one after them, or after the one that an offset page of a tree or diff skips. |
| `Pagination.NextPage` | utils/diff.go:160-186 | The key that a page names leads to the page that starts at its index. |
| `Pagination.KeyChainCovers` | utils/diff.go:160-186 | Trees and diffs: from any key, with any limits a client asks for, following next keys ends and shows every later index once and in order. |
| `Pagination.CommitChainCovers` | utils/commits.go:120-192 | With numbers that int can hold, a chain of commit pages begun at any offset ends and shows every commit from there on, once and in order. |
| `Pagination.CommitChainCoversIff` | utils/commits.go:120-192 | For any 64-bit offset and limits: it does so if and only if there are no commits, or the first sum of the offset and the limits that reaches the end stays below 2^64, or, from past the end, the offset is not negative as int and the wrapped sum is past the end too. |
| `Pagination.CommitsRepeat` | utils/commits.go:158-192 | Ten commits from offset 5 with limit 2^64 - 1: the page shows five commits and names the key of the fifth, so the chain repeats commits. |
| `Pagination.EntryChainSkipsOne` | utils/content.go:161-187 | A chain over a tree or a diff begun by an offset page shows exactly the indices from the offset on except offset + limit. |
| `Pagination.EntryChainCoversIff` | utils/content.go:161-187 | For any 64-bit offset and limit: it shows all of them if and only if nothing follows the offset, or the first page reaches the end, or the limit is 2^64 - 1. |
| `PendingUploads.Uploads.IsFileReferencedByOtherUploads` | internal/app/handler/attachment.go:459-466 | True exactly when another live upload has the same content. |
| `PendingUploads.Uploads.CleanupExpiredUploads` | internal/app/handler/attachment.go:447-457 | For any order of the map: exactly the unexpired uploads are left, and exactly the files of expired uploads that no live upload needs are removed. |
| `PendingUploads.Uploads.CalculatePendingUploadsSize` | internal/app/handler/attachment.go:437-445 | The total of the live uploads of one address for one release, in any order of the map. |
| `PendingUploads.SizeWithout` | internal/app/handler/attachment.go:437-445 | The total does not depend on the order in which uploads are added up. |
| `PendingUploads.RecordCharges` | internal/app/handler/attachment.go:433-445 | Recording an upload adds its size to the total of its own address, repository and tag while it is live, and to no other; an upload recorded before under its token no longer counts. |
| `PendingUploads.CleanupKeepsSizes` | internal/app/handler/attachment.go:437-457 | Cleaning changes no total, neither then nor at any later time. |
| `PendingUploads.CleanupTakesIff` | internal/app/handler/attachment.go:447-466 | Cleaning removes a file exactly when an upload of it is past its time and none of its uploads has time left. |
| `PendingUploads.KeptLosesFileIff` | internal/app/handler/attachment.go:447-466 | An upload that cleaning keeps loses its file exactly when it expires at that very instant, no upload of the same content lives on, and one of them has expired. |
| `PendingUploads.KeptUploadLosesFile` | internal/app/handler/attachment.go:447-466 | Such a pair: one upload expired and one of the same content expiring at that instant; the second is kept, its file is not. |
| `PendingUploads.StepKeepsFiles` | internal/app/handler/attachment.go:301-340 | A step leaves every live upload with its file unless it records a live upload whose file is missing. |
| `PendingUploads.LiveKeepFilesIff` | internal/app/handler/attachment.go:204-340 | Over every run of separate writes and records, confirmations and cleanings whose clock does not go back: at all times all live uploads have their files, if and only if every live upload was written before it was recorded and no cleaning in between found its content dropped and not needed. |
| `PendingUploads.LiveKeepFiles` | internal/app/handler/attachment.go:204-340 | In particular over every such run in which no cleaning comes between writing a file and recording its upload. |
| `PendingUploads.CleanupBetweenHalves` | internal/app/handler/attachment.go:204-340 | Such a run: a cleaning between writing a file and recording its upload removes it, because an earlier upload of the same content has expired. |

## Left out

- HTTP routing, authentication, signature checks and JSON event parsing: branches over unseen libraries.
- git, IPFS, pinning services and chain queries: they are oracles or abstract state (commit graph, ref map, file map, reference counts). That `git update-ref --stdin` is atomic, judges each ref as a single update does and commits what it has received when its input ends is an assumption of `RefSync`. Writing to it fails only when git has exited, which before the end of its input it does with an error, so that an accepted transaction has lost commands is a hypothetical case of `BatchAgreesIff`; a command cut off in the middle of its line is left out.
- The tree library of the challenge proofs is not part of this model; the padded binary tree it documents is, over any hash function. Hash internals are left open: soundness names the collision or the hit on a tree value it would take.
- The hash of an internal node has twice the length of a chunk hash, and `AnyProofIsOfTheTree` is about digests of the length of a chunk hash, which is all that computeChunkHashes produces.
- Hook input of more than one line: Parse reads the first line only, so a push has one ref. Pushes to one repository are serialised by the write lock at `internal/app/git_http.go:110-111`. Pushed refs lie outside `refs/dangling`.
- Other users of the repository locks while merge workers run, and the merge itself: the pool is alone with its locks. Errors inside Process other than the pull request query end in the same unlocks.
- sync.RWMutex makes new readers wait while a writer waits; the model lets them in, so its runs include those of the source and `AcquireEnabledIff` is exact for writers.
- Weak memory and the int32 width of the lock counters: atomics are single steps on integers.
- Locks and clock are frozen during one clearing pass of `CacheEviction`; what the lock-free removal means for holders is in `KeyedLocks`. Failures to list a directory, the ticker and the isRunning flag are left out.
- sort.Slice is insertion sort, as Go runs it on fewer than twelve entries; for more entries Go's pattern-defeating quicksort is not part of this model, so for those `SortedIff` is about insertion sort.
- Partial packfiles left by failed downloads: a failed download changes nothing in `ForkCache`. Eviction during a download is left out.
- Several pinning providers: all of them together are one set of names. The concurrent workers within one block of events are taken one after the other, each seeing the chain right after its event.
- Duplicate names among the chain's assets of one release, and the proposal, polling and voting after the updates are built.
- The order in which batches reach the chain: broadcasting happens outside the mutex. A failed broadcast is logged and its messages are gone. A second Stop panics on the closed channel and is outside the contract of `BatchTxManager.Stop`.
- Overflow of the coin amount in the storage charge: prices and charges are unbounded.
- git reads every skip and count at its value, a negative skip as none and a negative count as no limit. A page key shorter than eight bytes panics in the source; it is an error result here. Entries and commits do not change between the pages of one chain, and the default limit is positive.
- Data races on the map of pending uploads, which the source does not lock: `LiveKeepFilesIff` treats each write, record, confirmation and cleaning as atomic. Sums of upload sizes are unbounded.
- `route/lfs/locks.go`, configuration, commands, mocks, logging and timeouts: no state to reason about.
