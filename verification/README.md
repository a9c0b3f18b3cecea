# SynapS3: verified models of its state machines

SynapS3 is an S3 gateway with a local write cache in front of Filecoin. This
project models the parts of it whose correctness depends on many steps working
together, and proves what those parts promise:

- the **capacity-reserving write cache**, with every failure of link, rename,
  directory sync and remove (`CacheLedger`, `CacheFilesystem`);
- the **gate** that orders readers, commits and deletions of a cache key, and the
  admin package's lock table (`GateProtocol`, `Gate`, `KeyedLocks`);
- the **access tracker**, a bounded write-back table whose store writes happen
  outside its lock (`TrackerProtocol`, `Tracker`);
- the **paged listings** with prefix, delimiter and markers, for S3 and for the
  admin pages (`KeyOrder`, `ListingSpec`, `ListingSteps`, `Listing`,
  `AdminListing`);
- **multipart completion** (`MultipartAssembly`, `MultipartProtocol`) and
  **writers that share the same bytes** (`ContentWrites`);
- the **login failure limiter** (`LoginBlocks`, `LoginLimiter`), the **wallet
  cache** (`WalletCache`) and the **provider identity resolver**
  (`ActorResolver`);
- **entity-tag lists** (`EntityTags`), **copy health** (`CopyHealth`,
  `BucketHealth`) and **token amounts** (`Amounts`).

`Sums` and `Options` hold what the others share. `dafny verify dfyconfig.toml`
checks everything.

## How the models are built

A component with state of its own in memory is written twice. One part is a
transition system: a state, the events that can happen to it (one event for each
section under a lock, each channel operation, each store write or file-system
outcome), an invariant, and theorems about every run; the other is a class with
the fields of the original, updated in place. A method for one locked section says
which event it performs; a longer one says which run of events, or which events of
its own with anything others do between them. The gate's and the lock table's
classes keep their invariant over all keys at once, and the tracker's shard over
all contents. Multipart uploads and content writes live in the database and the
cache; they are transition systems only, together with the methods that check and
assemble an upload in the cache. Results of file-system calls, database calls,
lookups and the clock are parameters, so every theorem holds for all of them.

What both parts share, such as when a store write is due or which copy counts
first, is stated once more without these definitions and with its numbers written
out, in the methods' own contracts or in lemmas named `...Exactly`. Lemmas named
`...Succeeds` and the like give the run of a request that meets with no fault, so
that no protocol is safe only because nothing can happen in it.

Three properties are false as one would first state them, and the project says
exactly when they hold:

- The cache stays within its limit except after a part commit whose rename *and*
  whose removal of the backup link both fail: `CacheLedger.StepKeepsBound` is an
  if-and-only-if, and `CacheLedger.StrandingExceedsLimit` is a run that exceeds
  the limit.
- A list header whose outer quotes were stripped keeps its verdict except the
  quoted star: `EntityTags.StrippingKeepsVerdict` is an if-and-only-if.
- Access times increase strictly in each entry of the tracker, but not across
  entries of a content: `TrackerProtocol.UninformedTimeGoesBack` is a run in which
  one goes back, and `TrackerProtocol.LaterExactly` says exactly when one does not.

## Assumptions

- Sections under one lock are atomic. `Quarantine` and `DeleteQuarantined` of the
  same content are serialised by their callers, since they take different shard
  locks; removal of an upload directory is serialised with part commits by the
  upload's gate.
- Temp-file names are not reused, and a write is not committed after it was rolled
  back. A file's size can always be read.
- The semaphore never grants more than its capacity.
- The tracker's store keeps the latest time of each content, and the durable time
  handed to the tracker was read from that store. (The access-only update of the
  real store does nothing for a content without a row; such a content is not
  evicted by access time.)
- Keys are non-empty and valid UTF-8, compared code point by code point, which is
  byte order.
- An entity tag or digest determines its bytes where a theorem says so in its
  preconditions.
- Database statements and transactions are atomic; a change may be applied and
  still be reported as failed.
- Counters of invalidations and of list elements do not wrap around.

## Model

| member | source | states |
|---|---|---|
| CacheLedger.StepKeepsAccounts | internal/cache/filesystem.go:347-447 | every step of staging, commit, rollback, removal or quarantine, under any faults, leaves used bytes equal to the sizes of all charged entries and reserved bytes equal to what open writes hold |
| CacheLedger.CommitKeepsAccounts | internal/cache/filesystem.go:347-429 | the same for each of the six outcomes a commit can have |
| CacheLedger.RemovalKeepsAccounts | internal/cache/local.go:73-127 | the charge of a removed or quarantined file goes or moves with it, also when it replaces a file |
| CacheLedger.RunKeepsAccounts | internal/cache/filesystem.go:67-106 | both counters are exact in every state of every run |
| CacheLedger.StepKeepsBound | internal/cache/filesystem.go:384-393 | a step keeps a bound of at least the limit if and only if it is not a stranding commit whose extra entry no longer fits |
| CacheLedger.RunKeepsCapacity | internal/cache/filesystem.go:67-87 | used plus reserved bytes never exceed the larger of the limit and the usage at start, until the first stranding commit |
| CacheLedger.RoomStaysInRange | internal/cache/filesystem.go:67-82 | the subtractions of the admission test stay within 64 bits, and no open write stages more than it holds |
| CacheLedger.StrandingExceedsLimit | internal/cache/filesystem.go:384-393 | a run in which rename and backup removal both fail and the limit is exceeded |
| CacheLedger.UnpublishedCommitKeepsPart | internal/cache/filesystem.go:375-419 | a part commit that does not publish keeps the previous part's bytes under its name or its backup |
| CacheLedger.CommitOnDisk | internal/cache/filesystem.go:347-429 | what is on disk after each outcome of a commit: the staged bytes under the destination once published, what was there otherwise, the earlier part aside where it could not be removed, and every other file as before |
| CacheLedger.OnlyTempsAreFree | internal/cache/filesystem.go:120-168 | the charge is the sum of the sizes of all files but temp files |
| CacheLedger.NothingReservedAtRest | internal/cache/filesystem.go:89-106 | nothing stays reserved once every write has committed or closed |
| CacheLedger.RefusedIsLargest | internal/cache/filesystem.go:531-537 | the refused-bytes counter is the largest reservation refused since it was last consumed, in every run |
| CacheFilesystem.SizeOfFiles | internal/cache/filesystem.go:120-168 | the walk at start counts exactly the files that are not temp files |
| CacheFilesystem.Filesystem.constructor | internal/cache/filesystem.go:120-168 | opening yields exact counters over the files that remain |
| CacheFilesystem.Filesystem.BeginWrite | internal/cache/filesystem.go:67-87 | a write is refused exactly when it is negative or does not fit, and otherwise reserves its size |
| CacheFilesystem.Filesystem.WriteChunk | internal/cache/filesystem.go:25-38 | a chunk is taken as a whole or refused, exactly by the room left in the reserved size |
| CacheFilesystem.Filesystem.Release | internal/cache/filesystem.go:98-106 | gives back all that a write still holds |
| CacheFilesystem.Filesystem.PutStaged | internal/cache/filesystem.go:290-343 | the write ends staged with exactly the bytes read, or closed with both counters as before; which one is decided by size, capacity and faults |
| CacheFilesystem.Filesystem.CopyChunks | internal/cache/filesystem.go:320-327 | the copy loop stops exactly when the bytes exceed the reserved size |
| CacheFilesystem.Filesystem.CommitAs | internal/cache/filesystem.go:347-429 | a commit has exactly the outcome its decision table gives and is one step of the ledger; a successful one has put the staged bytes under the destination, and a staged write whose temp file is there, with no backup in the way, succeeds when nothing fails |
| CacheFilesystem.Filesystem.Rollback | internal/cache/filesystem.go:434-447 | one rollback step; a committed write is left alone |
| CacheFilesystem.Filesystem.Delete | internal/cache/filesystem.go:474-510 | the file and its charge are gone and no other file is touched; succeeds for a missing file, changes nothing on failure |
| CacheFilesystem.Filesystem.DeleteUpload | internal/cache/filesystem.go:745-794 | a run of removals inside one upload directory; succeeds exactly when no file resists or is cancelled and the directories go, and nothing of the upload is left once no file resists |
| CacheFilesystem.Filesystem.Quarantine | internal/cache/local.go:73-119 | the bytes are under the new name and not the old, with their charge, or nothing changes; a sync that fails afterwards is reported |
| CacheFilesystem.Filesystem.ConsumeRefusedWriteBytes | internal/cache/filesystem.go:531-537 | returns the counter and resets it |
| CacheFilesystem.Filesystem.AssemblePartsStaged | internal/cache/filesystem.go:604-741 | stages the concatenation of the part files with the digest of each; fails exactly on a missing part, a fault or lack of room |
| CacheFilesystem.ConcatInOrder | internal/cache/filesystem.go:604-741 | each byte of each part is in the assembled bytes, as far past the parts before it as it is in its own |
| GateProtocol.StepKeepsSafe | internal/cacheaccess/gate.go:107-135 | granted weight stays within capacity |
| GateProtocol.ExclusionInEveryRun | internal/cacheaccess/gate.go:107-135 | in every run of the users of one semaphore, an exclusive holder never coexists with another holder |
| GateProtocol.ReadersShare | internal/cacheaccess/gate.go:17-17 | with fewer than 2^63-1 users, all of them readers, one more reader fits |
| GateProtocol.ReadsAndExclusion | internal/cacheaccess/gate.go:107-135 | an exclusive holder keeps readers out, and any holder keeps an exclusive user out |
| Gate.Gate.Acquire | internal/cacheaccess/gate.go:168-183 | all live users of a key share the entry in the table, whose count is exactly its holders and waiters |
| Gate.Gate.Release | internal/cacheaccess/gate.go:185-193 | the entry released is always the one in the table, so the identity test never fails, and it goes exactly with its last user |
| Gate.Gate.TryGrant | internal/cacheaccess/gate.go:107-135 | a permit is granted exactly when nobody queues and the weight fits: a reader whom nobody is ahead of gets in when only readers hold the key, and an exclusive user only when nobody does |
| Gate.Gate.Withdraw | internal/cacheaccess/gate.go:122-135 | a user that gives up leaves the key as if it had never come |
| Gate.Gate.Finish | internal/cacheaccess/gate.go:107-135 | a holder returns its permits and its place |
| Gate.Gate.UsersShareEntry | internal/cacheaccess/gate.go:168-193 | all users of a key, holding or waiting, came by the entry in the table, although entries are deleted and created again |
| Gate.Gate.ExclusiveHolderIsAlone | internal/cacheaccess/gate.go:107-193 | over the whole table, in every state its methods can reach: an exclusive holder of a key is its only holder, whichever entries the two came by |
| Gate.Gate.EmptyWhenAllLeft | internal/cacheaccess/gate.go:168-193 | the table is empty exactly when no key has a user |
| KeyedLocks.KeyedLockSet.Enter | internal/admin/auth.go:106-114 | users of a key share one lock whose count is exact |
| KeyedLocks.KeyedLockSet.Leave | internal/admin/auth.go:118-125 | deleting by key alone is safe: the lock left is always the one in the table |
| KeyedLocks.KeyedLockSet.TryLock | internal/admin/auth.go:116-116 | the mutex is had exactly when nobody holds it, and is locked afterwards |
| KeyedLocks.KeyedLockSet.Finish | internal/admin/auth.go:117-125 | the critical section ends with the user gone from the key |
| KeyedLocks.KeyedLockSet.HolderIsAlone | internal/admin/auth.go:106-127 | over the whole table, two users inside the critical section of a key are the same user |
| TrackerProtocol.NextAccessTime | internal/cacheaccess/tracker.go:387-400 | later than the in-memory and the durable time and not before the clock, by as little as possible |
| TrackerProtocol.StepKeepsInv | internal/cacheaccess/tracker.go:169-271 | every step keeps commits pending no later than accesses, persisted times no later than the store's, and recorded times represented |
| TrackerProtocol.RecordAdvances | internal/cacheaccess/tracker.go:192-212 | one recording step moves an entry past its own and the given durable time, and keeps the entry |
| TrackerProtocol.AccessTimesIncrease | internal/cacheaccess/tracker.go:181-217 | in every run the accesses recorded in one entry have strictly increasing times |
| TrackerProtocol.InformedTimesIncrease | internal/cacheaccess/tracker.go:387-400 | across entries too, an access that was told the present durable time is later than every access recorded and not forgotten before it |
| TrackerProtocol.UninformedTimeGoesBack | internal/cacheaccess/tracker.go:387-400 | a run in which an access that was not told gets an earlier time than one recorded in an evicted entry |
| TrackerProtocol.LaterExactly | internal/cacheaccess/tracker.go:387-400 | an access is later than a given time if and only if the clock is past it, or the entry or the given durable time reaches it |
| TrackerProtocol.EntriesAreKeptUntilSafe | internal/cacheaccess/tracker.go:235-259 | an entry leaves only clean or forgotten, and a pending commit clears only after a commit-type write not earlier than it succeeded |
| TrackerProtocol.SafeMeansRepresented | internal/cacheaccess/tracker.go:165-167 | for every access event of a run, in the table or by overflow, not forgotten since: while the tracker is safe its time is at most the later of the in-memory and the durable time; for every commit event: it is pending or durable |
| TrackerProtocol.UnsafeIsForever | internal/cacheaccess/tracker.go:220-233 | once unsafe, always unsafe |
| TrackerProtocol.RecordedIsLatestAccess | internal/cacheaccess/tracker.go:169-233 | the history kept by the model is exactly the latest access event since the content was last forgotten |
| Tracker.StepKeepsSound | internal/cacheaccess/tracker.go:169-363 | a step of one content, with an eviction of another or a failure that concerns all, keeps the invariant for every content of the shard |
| Tracker.FindOldestClean | internal/cacheaccess/tracker.go:365-385 | finds the clean entry touched longest ago, or that none is clean |
| Tracker.Shard.EvictOldestClean | internal/cacheaccess/tracker.go:365-385 | a full shard drops exactly that entry, leaves every other content alone, and has room unless nothing is clean |
| Tracker.Shard.Touch | internal/cacheaccess/tracker.go:192-212 | the access moves the entry past its own, the clock and the durable time, keeps the other fields as they must be, and is written now exactly for a commit or when the interval since the last attempt has passed |
| Tracker.Shard.Record | internal/cacheaccess/tracker.go:169-217 | answers at once exactly for an entry whose last attempt lies within the interval and no commit is asked for; spills exactly when the shard is full of entries that are not clean; of the others it evicts at most one, and only a clean one; the shard keeps its limit and every content the invariant |
| Tracker.Shard.SpillHere | internal/cacheaccess/tracker.go:220-233 | an access that finds no room goes to the store with a time past the clock and the durable time |
| Tracker.Shard.PauseLRU | internal/cacheaccess/tracker.go:228-231 | a failed overflow write makes every content unsafe |
| Tracker.Shard.StoreReturns | internal/cacheaccess/tracker.go:220-271 | a store step for its content; the others change only by a failed overflow write |
| Tracker.Shard.Acknowledge | internal/cacheaccess/tracker.go:235-259 | an acknowledgement reaches only the entry it was written for, and changes no other content |
| Tracker.Shard.FlushStart | internal/cacheaccess/tracker.go:313-337 | a write is due exactly for an entry with an access or a commit not yet stored, when it is forced or the interval since the last attempt has passed |
| Tracker.Shard.FlushEnd | internal/cacheaccess/tracker.go:352-363 | retires the entry exactly when it is the same, clean and idle |
| Tracker.Shard.Forget | internal/cacheaccess/tracker.go:154-161 | drops the entry and its history, and nothing else |
| Tracker.Shard.Latest | internal/cacheaccess/tracker.go:138-146 | the in-memory time of the content |
| Tracker.Shard.SafeForLRU | internal/cacheaccess/tracker.go:165-167 | safe for one content means safe for all, and then every access of every content is represented |
| KeyOrder.UpperBoundContract | internal/db/repository/prefix_filter.go:37-54 | a key at or above a prefix begins with it if and only if it is below the bound, or there is no bound |
| KeyOrder.UpperBoundIsLeast | internal/db/repository/prefix_filter.go:37-54 | no smaller string is above all keys with the prefix |
| KeyOrder.LessExactly | internal/db/repository/prefix_filter.go:37-54 | the order of keys: a proper prefix first, else by the first character that differs |
| ListingSpec.FolderHoldsItsKeys | internal/backend/listing.go:152-162 | a folder extends the prefix and begins the key it was made of, and every key that begins with it has the same folder |
| ListingSpec.FolderAtFirst | internal/backend/listing.go:152-162 | a key with the delimiter after its prefix is in the folder that ends at the first one |
| ListingSpec.FolderExactly | internal/backend/listing.go:152-162 | for a delimiter that is not empty, a key has no folder exactly when the delimiter occurs nowhere after its prefix |
| ListingSpec.ItemsExact | internal/backend/listing.go:14-78 | a listing holds exactly the rows outside folders and the folders above the marker that still have a row |
| ListingSpec.ItemsOrdered | internal/backend/listing.go:14-78 | names ascend, and nothing is listed twice |
| ListingSpec.ResumeListsTheRest | internal/backend/listing.go:14-78 | resuming at a page's marker lists exactly what the page left out |
| ListingSteps.JumpReachesEnd | internal/backend/listing.go:59-63 | a query from a folder's upper bound continues exactly at the folder's end |
| ListingSteps.WalkListsEverything | internal/backend/listing.go:14-78 | following the markers from any start yields each row and each folder once and in order |
| ListingSteps.WalkIsShort | internal/backend/listing.go:14-78 | and ends |
| Listing.CursorAtRow | internal/backend/listing.go:80-150 | a query past a (key, version) cursor starts right after that row |
| Listing.VisitFolder | internal/backend/listing.go:47-64 | lists a folder once and skips its rows, or stops on a full page |
| Listing.ScanBatch | internal/backend/listing.go:42-72 | one batch leaves the progress exact, also when a folder reaches past the batch |
| Listing.ListPage | internal/backend/listing.go:14-78 | for every batch and page size, a page is exactly the first items above the marker, truncated exactly when more remain; the scan ends because the rows at or beyond the cursor shrink |
| Listing.List | internal/backend/listing.go:80-150 | the same for a bucket's rows under a prefix, with (key, version) markers; without versions it is the listing of current objects; `RowsExactly` and `FoldersExactly` say in terms of the table what is listed |
| Listing.RowsExactly | internal/backend/listing.go:80-150 | a row is listed exactly when it has the prefix, is past the marker and has no delimiter after the prefix |
| Listing.FoldersExactly | internal/backend/listing.go:80-150 | a folder is listed exactly when it is above the marker and some row of it is past the marker |
| Listing.ListAll | internal/backend/listing.go:14-150 | a client that follows the returned markers from any start gets every row and folder above it, once and in order, and ends |
| AdminListing.AdminBoundIsUpperBound | internal/admin/api_buckets.go:1810-1816 | replacing the final "/" by "0" is the prefix upper bound |
| AdminListing.LastOfFolder | internal/admin/api_buckets.go:1781-1787 | the last row of the batch in the folder |
| AdminListing.AdvancePastFolder | internal/admin/api_buckets.go:1781-1796 | moves past folder rows only, and jumps only from the end of a full batch to exactly the folder's end |
| AdminListing.PassFolder | internal/admin/api_buckets.go:1735-1763 | lists the folder exactly when it is above the marker and not yet seen |
| AdminListing.ScanBatch | internal/admin/api_buckets.go:1726-1770 | one batch leaves the progress exact |
| AdminListing.ListPage | internal/admin/api_buckets.go:1698-1779 | for every batch boundary the page is the simple specification's, also when the first query returns the row of the prefix itself |
| AdminListing.ListBucketObjectEntries | internal/admin/api_buckets.go:1698-1779 | the page of the simple listing over the keys other than the prefix, resumable at the key it returns |
| AdminListing.ObjectsExactly | internal/admin/api_buckets.go:1698-1779 | an object is listed exactly when it is shown, past the marker and has no delimiter after the prefix |
| AdminListing.ShownExactly | internal/admin/api_buckets.go:1698-1779 | the keys shown are those with the prefix other than the prefix itself |
| AdminListing.FoldersExactly | internal/admin/api_buckets.go:1698-1779 | a folder is listed exactly when it is above the marker and some shown key of it is past the marker |
| AdminListing.ListAllEntries | internal/admin/api_buckets.go:1698-1779 | following the returned keys gives every shown object and folder, once and in order, and ends |
| MultipartAssembly.ReadNumbers | internal/backend/multipart.go:320-330 | accepts exactly requests whose parts are numbered in strictly ascending order, and otherwise reports the first flaw |
| MultipartAssembly.FlawExactly | internal/backend/multipart.go:320-330 | the order is at fault exactly when a number is not above the one before it and none before is missing |
| MultipartAssembly.RowsCountParts | internal/backend/multipart.go:332-338 | counting the fetched rows finds a missing part |
| MultipartAssembly.SumSizes | internal/backend/multipart.go:354-364 | refuses exactly totals over the limit, without leaving 64 bits |
| MultipartAssembly.CheckRequest | internal/backend/multipart.go:320-353 | accepts exactly requests that name recorded parts in order with matching tags; quotes around a tag do not matter |
| MultipartAssembly.Plan | internal/backend/multipart.go:320-367 | the checks before assembly: accepts exactly requests that name recorded parts in order with a total within the limits, and gives each refusal its exact cause |
| MultipartAssembly.CheckAssembled | internal/backend/multipart.go:380-387 | accepts exactly an assembly of the recorded size and tags |
| MultipartAssembly.StageAndCheck | internal/backend/multipart.go:371-387 | assembles in the cache, fails exactly on a missing part, lack of room or a fault, and rolls back what does not match |
| MultipartAssembly.Assemble | internal/backend/multipart.go:259-387 | over the cache as it stands: succeeds exactly on acceptable requests it has room for, leaving the concatenation of the requested parts staged; each refusal has its exact cause and leaves nothing reserved |
| MultipartAssembly.PublishedIsAcceptable | internal/backend/multipart.go:259-387 | recorded parts in ascending order with their files in place, of at most 1065353216 bytes, are acceptable, with tags given bare, in quotes or not at all |
| MultipartAssembly.AcceptableIsBounded | internal/objectlimits/foc.go:15-15 | no request above 1065353216 bytes, out of order or with another tag is acceptable |
| MultipartAssembly.TotalIsLength | internal/backend/multipart.go:354-364 | the total of the recorded sizes is the length of the assembled bytes |
| MultipartAssembly.AssembledIsWhatWasPublished | internal/backend/multipart.go:380-387 | with injective tags the object is made of the recorded parts, whatever an unrecorded re-upload left on disk |
| MultipartProtocol.AcceptableIsVerified | internal/backend/multipart.go:380-387 | the checks of assembly establish that each file is the recorded part |
| MultipartProtocol.StepKeepsInv | internal/backend/multipart.go:234-257 | every step keeps the invariant: publication, also one that fails and leaves its bytes, completion, abort, failed completion, and restart, also one that fails to release |
| MultipartProtocol.TerminalIsFinal | internal/backend/multipart.go:487-512 | a completed or aborted upload stays so and gets no further version |
| MultipartProtocol.PublishesOnlyWhileInitiated | internal/backend/multipart.go:234-257 | no part file or record appears or changes once the upload is completing or done |
| MultipartProtocol.RollBackIsOwn | internal/backend/multipart.go:299-318 | a failed completion's rollback takes back its own claim and no other |
| MultipartProtocol.CompletionCreatesRecordedParts | internal/backend/multipart.go:411-449 | the version created is the concatenation of recorded parts in strictly ascending order, and exactly their records are kept |
| MultipartProtocol.OneOutcomePerUpload | internal/backend/multipart.go:467-512 | in every run, with crashes and restarts, an upload never both completes and aborts and has at most one version |
| MultipartProtocol.IdleGateAdmits | internal/backend/multipart.go:234-240 | a request that comes to an idle upload is let in |
| MultipartProtocol.PublishSucceeds | internal/backend/multipart.go:234-257 | without faults a published part is on disk and recorded with its bytes |
| MultipartProtocol.CompleteSucceeds | internal/backend/multipart.go:259-465 | without faults a completion of verified parts makes one version of them in order and keeps exactly their records |
| MultipartProtocol.FailedCompletionReturns | internal/backend/multipart.go:299-318 | a completion that fails its checks leaves the upload as it was, open for the next request |
| MultipartProtocol.AbortSucceeds | internal/backend/multipart.go:473-512 | without faults an abort leaves no part file and no record |
| ContentWrites.StepKeepsInv | internal/backend/object.go:107-144 | every step of writers, deletions, releases, discards, evictions, quarantines and crashes keeps files and rows behind named contents |
| ContentWrites.FileGoesOnlyUnnamed | internal/objectdeletion/cache_cleanup.go:35-70 | a release or discard removes the cached file only while no version names the content |
| ContentWrites.VersionComesWithFile | internal/backend/object.go:107-144 | a version appears only with its file and row already in place |
| ContentWrites.NamedContentIsCached | internal/backend/object.go:1463-1507 | in every interleaving, with crashes, a content named by a committed version has its row, and its file unless an eviction or a quarantine took it |
| ContentWrites.ClearedByRecheck | internal/objectdeletion/cache_cleanup.go:54-66 | whoever may remove the file found so in an earlier recheck and has held the exclusive permit since |
| ContentWrites.FileIsTakenForCause | internal/task/cache/evict.go:117-131 | in every run an eviction removes a file only after it found the content durable, a quarantine only after it found it damaged, and nobody else held a permit in between |
| ContentWrites.WriteSucceeds | internal/backend/object.go:107-144 | beside any readers, a write without faults ends with the row, the file and the version in place |
| ContentWrites.CleanUpSucceeds | internal/objectdeletion/cache_cleanup.go:35-70 | a clean-up at an idle gate that finds its condition removes the file, and a discard the row |
| LoginBlocks.BlockedKeyIsRefused | internal/admin/auth.go:965-981 | with a clock that does not go back, a key whose count reached five is refused for the whole block period, whatever is called for other keys |
| LoginBlocks.BlockStands | internal/admin/auth.go:983-1010 | neither clean-up nor eviction nor other calls lift a block |
| LoginBlocks.CountsEveryFailure | internal/admin/auth.go:983-1006 | while its record lives a key counts exactly the failures reported for it, and the fifth dates the block |
| LoginBlocks.BeginExactly | internal/admin/auth.go:965-981 | a login may begin exactly when the key has not had five failures with the last within a minute |
| LoginBlocks.FailureExactly | internal/admin/auth.go:983-1006 | a failure counts up, the fifth dates the block, one within a block does not count, and the first after a block counts as one |
| LoginBlocks.NewKeyExactly | internal/admin/auth.go:965-1006 | a key without a record starts from nothing |
| LoginBlocks.OtherKeyExactly | internal/admin/auth.go:1012-1048 | a call for another key takes a record only when it is ten minutes old or not blocked |
| LoginLimiter.WithoutRemoves | internal/admin/auth.go:1078-1082 | removing an element from the list removes exactly it |
| LoginLimiter.Limiter.Cleanup | internal/admin/auth.go:1042-1048 | removes exactly the expired records |
| LoginLimiter.Limiter.MaybeCleanup | internal/admin/auth.go:1050-1055 | cleans up exactly when it is due, taking exactly the expired records, and says when the next is due |
| LoginLimiter.Limiter.MakeRoom | internal/admin/auth.go:1012-1034 | evicts exactly the first listed key that is not blocked, fails exactly when every listed key is blocked; the stale-element branch is unreachable |
| LoginLimiter.Limiter.Store | internal/admin/auth.go:1057-1067 | a key is listed exactly when it is not blocked, at the back, under the element it had; the rest of the list keeps its order |
| LoginLimiter.Limiter.Delete | internal/admin/auth.go:1069-1076 | removes the record with its element |
| LoginLimiter.Limiter.Begin | internal/admin/auth.go:965-981 | one step for every key; the table stays within 4096 keys and the list holds exactly the elements of records, each once; a new key is refused only by a full table with nothing to evict; a clean-up comes once a minute and leaves no expired record of another key |
| LoginLimiter.Limiter.RecordFailure | internal/admin/auth.go:983-1006 | the same |
| LoginLimiter.Limiter.Clear | internal/admin/auth.go:1036-1040 | removes this key's record and touches no other |
| WalletCache.StepKeepsInv | internal/admin/wallet_cache.go:46-98 | the cached snapshot is of the present generation, and the flight that new calls join was born after every invalidation that has returned |
| WalletCache.ReturnsNothingOlder | internal/admin/wallet_cache.go:55-98 | whatever is returned to a call that starts after an invalidation returned comes from a fetch begun after that invalidation, in every interleaving |
| WalletCache.CachesNothingOlder | internal/admin/wallet_cache.go:74-80 | so does whatever is cached |
| WalletCache.QuietCallFetches | internal/admin/wallet_cache.go:55-98 | a call that finds nothing cached and no flight gets the answer of a fetch of its own, which is then cached |
| WalletCache.FreshCallHits | internal/admin/wallet_cache.go:55-62 | a call that finds an unexpired snapshot gets it without a flight |
| WalletCache.Querier.Invalidate | internal/admin/wallet_cache.go:46-53 | one step: nothing is cached and the generation is the next |
| WalletCache.Querier.LookUp | internal/admin/wallet_cache.go:100-109 | a hit exactly for a snapshot whose time has not come, and then that snapshot |
| WalletCache.Querier.Publish | internal/admin/wallet_cache.go:74-80 | a fetch of the present generation is cached until its time; a late one of an older generation changes nothing |
| ActorResolver.StepKeepsInv | internal/admin/provider_identity.go:141-272 | each refreshing key is sent, queued or held exactly once; cached and backed-off keys are current; cached fields were found for the key's own address |
| ActorResolver.RunKeepsInv | internal/admin/provider_identity.go:179-272 | the same in every run of callers and workers |
| ActorResolver.EnrichesFromOwnAddress | internal/admin/provider_identity.go:141-177 | the fields read for a key were found for exactly its address, in every run |
| ActorResolver.EnrichExactly | internal/admin/provider_identity.go:158-166 | what an enrichment keeps and drops, key by key |
| ActorResolver.SaveExactly | internal/admin/provider_identity.go:239-263 | what saving an answer changes, key by key |
| ActorResolver.IdleKeyIsTaken | internal/admin/provider_identity.go:179-216 | a current key that is idle and not backed off is marked, sent and taken |
| ActorResolver.TakenKeyIsSaved | internal/admin/provider_identity.go:218-272 | left alone, a worker saves what it finds for a current key and lets go of it |
| ActorResolver.OthersKeepRely | internal/admin/provider_identity.go:141-272 | every event of another caller or worker keeps what a caller outside the lock relies on |
| ActorResolver.Resolver.EnrichOne | internal/admin/provider_identity.go:158-170 | makes its key the provider's current one, drops what the provider's other keys had and nothing else, fills in the fields cached for the key, and asks for a refresh exactly when there are none, they name no actor or their time has come |
| ActorResolver.Resolver.MarkRefreshing | internal/admin/provider_identity.go:179-194 | one marking step, exactly for a current, idle key that is not backed off |
| ActorResolver.Resolver.TrySend | internal/admin/provider_identity.go:195-197 | one sending step: the key goes to the back of the queue exactly while fewer than 128 are in it |
| ActorResolver.Resolver.Unmark | internal/admin/provider_identity.go:198-200 | one step that takes the mark back |
| ActorResolver.Resolver.Enqueue | internal/admin/provider_identity.go:179-205 | mark, send and, on a full queue, unmark, with anything others do in between; a key that may not be marked changes nothing |
| ActorResolver.Resolver.EnrichActors | internal/admin/provider_identity.go:141-177 | with anything others do between the sections: answers exactly the given identities, keeps what they say, and fills in only fields found for their address |
| ActorResolver.Resolver.Take | internal/admin/provider_identity.go:207-216 | a worker takes the head of the queue |
| ActorResolver.Resolver.CheckCurrent | internal/admin/provider_identity.go:224-229 | one step that drops a key no longer current |
| ActorResolver.Resolver.Save | internal/admin/provider_identity.go:239-263 | one step: a good answer is cached and ends the backoff, a failed one sets the backoff and at most supplies a missing Filecoin address; an outdated key saves nothing |
| EntityTags.ReadsEveryList | internal/backend/conditions.go:85-118 | every list of well-formed tags, with any commas and white space, reads back as those tags |
| EntityTags.ReadsOnlyLists | internal/backend/conditions.go:85-118 | a value that is read as tags is such a list |
| EntityTags.SameCharacters | internal/backend/conditions.go:91-108 | the characters that separate tags and that tags consist of |
| EntityTags.ListVerdict | internal/backend/conditions.go:85-118 | a list is valid, and matches exactly when some tag has the same text and, where strong comparison is asked for, is not weak |
| EntityTags.ValidExactly | internal/backend/conditions.go:85-118 | nothing but a star and lists is valid |
| EntityTags.StarExactly | internal/backend/conditions.go:86-89 | a star is read exactly from a star with blanks around it |
| EntityTags.ReadList | internal/backend/conditions.go:85-118 | the loop returns exactly this verdict |
| EntityTags.ReadETagMatches | internal/backend/conditions.go:75-83 | a value that is not valid is read again with its quotes put back |
| EntityTags.TrimQuotesExactly | internal/backend/conditions.go:75-76 | trimming takes off quotes and nothing else, and leaves none at either end |
| EntityTags.QuotedTagIsTrimmed | internal/backend/multipart.go:345-353 | a tag in quotes is the tag |
| EntityTags.StrippingKeepsVerdict | internal/backend/conditions.go:75-83 | for a stored hexadecimal tag, a valid list header stripped of its outer quotes gets the same verdict if and only if it is not the quoted star |
| EntityTags.BothListsMatchNothing | internal/backend/conditions.go:75-83 | when a quoted value and its inner part are both lists, neither matches a stored tag |
| CopyHealth.KindOf | internal/admin/api_copy_health.go:343-365 | each kind in terms of the copy status, the signal and what the signal misses |
| CopyHealth.SortOrders | internal/admin/api_copy_health.go:251-258 | the sort orders by priority and index and keeps every candidate |
| CopyHealth.SortedByKind | internal/admin/api_copy_health.go:367-380 | readable copies come first, then unverified, pending, failed and unclassified ones, each by index |
| CopyHealth.SortIsStable | internal/admin/api_copy_health.go:251-258 | candidates alike in both keep their order |
| CopyHealth.Accumulator.Summarize | internal/admin/api_copy_health.go:231-278 | the accumulator ends with the summary the specification defines |
| CopyHealth.Accumulator.AddSelected | internal/admin/api_copy_health.go:280-304 | counts one candidate in its group and takes the worse status |
| CopyHealth.Accumulator.ClassifyGap | internal/admin/api_copy_health.go:311-326 | missing copies count as pending, failed or unknown by what was seen |
| CopyHealth.CountsAddUp | internal/admin/api_copy_health.go:231-278 | readable, pending, failed and unknown add up to the copies requested |
| CopyHealth.ReadableIsMin | internal/admin/api_copy_health.go:251-265 | the number counted readable is the smaller of requested and readable candidates |
| CopyHealth.CountsExactly | internal/admin/api_copy_health.go:231-278 | the four counts as a function of the numbers of candidates of each kind: requested places are filled in that order, and empty ones are pending, failed or unknown |
| CopyHealth.StatusExactly | internal/admin/api_copy_health.go:266-277 | the status from the counts and the selected signals: unavailable, then unknown, then degraded, and available only when nothing is wrong |
| CopyHealth.NothingRequested | internal/admin/api_copy_health.go:244-249 | with nothing requested an object is available exactly when it has an upload |
| CopyHealth.StatusRank | internal/admin/api_copy_health.go:271-277 | the status is exactly as bad as the worst selected candidate or the gap |
| CopyHealth.ReadableNeverWorsens | internal/admin/api_copy_health.go:231-278 | one more readable copy, anywhere among the candidates, never worsens the status |
| BucketHealth.Gather | internal/admin/api_copy_health.go:116-146 | facts are gathered into objects in order of first appearance |
| BucketHealth.ObjectExactly | internal/admin/api_copy_health.go:116-146 | an object asks for the copies its first fact says, and has an upload when any of its facts says so |
| BucketHealth.CandidatesExactly | internal/admin/api_copy_health.go:134-146 | its candidates are the copies its facts tell of, in their order |
| BucketHealth.KeysInOrder | internal/admin/api_copy_health.go:120-133 | objects are ordered by their first facts |
| BucketHealth.ObjectsInExactly | internal/admin/api_copy_health.go:148-166 | a bucket's objects are those with its id, in that order |
| BucketHealth.AddingKeepsTotals | internal/admin/api_copy_health.go:156-166 | adding an object keeps the bucket's totals conserved |
| BucketHealth.Summarise | internal/admin/api_copy_health.go:148-177 | bucket totals: each count is the sum of the objects' counts, requested copies less the four counts is the sum of negative requests, readable is the sum of the objects' minima, and the status is the worst object's |
| BucketHealth.NothingNegative | internal/admin/api_copy_health.go:156-166 | so with no negative request the four counts make up the requested copies |
| Amounts.ParseDenotes | cmd/synaps3/wallet.go:499-539 | a decimal i.f of at most eighteen places parses to exactly i·10^18 + f·10^(18-k) for k fraction digits, or is refused as zero or too large |
| Amounts.ParseExact | cmd/synaps3/wallet.go:499-539 | a text is accepted as n if and only if it denotes n base units within 1..2^256-1 |
| Amounts.ParseIsTokens | cmd/synaps3/wallet.go:499-539 | a text is accepted as n if and only if it is a decimal of at most eighteen places, n is 1000000000000000000 times it, and 1 <= n < 2^256, written out |
| Amounts.FormRefusedExactly | cmd/synaps3/wallet.go:499-521 | a blank text is missing, one that starts with a minus sign is not positive, and any other that is no decimal is refused as such |
| Amounts.ValueRefusedExactly | cmd/synaps3/wallet.go:522-538 | a decimal is refused exactly when it has more than eighteen places, is zero or needs more than 256 bits |
| Amounts.TrimSpaceExactly | cmd/synaps3/wallet.go:500-500 | trimming takes off white space and nothing else, and leaves none at either end |
| Amounts.SpacesAreListed | cmd/synaps3/wallet.go:500-500 | the white space characters, one by one |
| Amounts.SameAmountSameValue | cmd/synaps3/wallet.go:499-539 | two accepted texts agree exactly when their decimal values, as real numbers, agree |
| Amounts.BitLenIsBound | cmd/synaps3/wallet.go:535-537 | the bit-length test is the bound 2^256 |
| Amounts.ValidExactly | internal/admin/api_wallet.go:321-332 | the API accepts exactly the canonical decimals of 1..2^256-1 |
| Amounts.ParsedIsValid | internal/admin/api_wallet.go:321-332 | what the command line accepts, written canonically, the API accepts as the same amount |

## Left out

- `DeleteBucketDir` and a directory removal that fails half-way: its accounting is not restored on that path.
- Real file I/O, permissions, path sanitising and hashing: paths are names, digests are functions.
- The order in which a directory walk, a map iteration or a key set is visited: every order is allowed.
- What makes a content durable or its cached file damaged: both are facts from outside that an eviction or a quarantine reads.
- The schedule of the tracker's sweep and of worker pools: any schedule is a run.
- HTTP handlers, JSON views, event streams, CLI output, metrics and configuration.
- `evaluateReadConditions` beyond entity tags: its date logic is in another package.
- Sessions, passwords, CSRF and proxy headers.
- Provider replacement, task retry and storage-health endpoints.
- The paging loop over orphaned contents, which calls the discard modelled here once for each row.
- Reason codes, staleness, last check and last error of copy health, and the count of unhealthy objects that depends on them.
- Object metadata, conditions on writes and post-write tasks inside the version transaction: a transaction is applied or not.
- The smallest size of an assembled object is a parameter; its value is in the storage SDK.
- BucketHealth.Summarise: builds each object's accumulator when it is summarised, not when its first fact is seen; the fields are the same.
- A missing identity resolver, which only copies the identities it is given.
- AdminListing.ListPage: keeps the row number of the last marker, so the marker set by the row of the prefix itself, which no page returns, is not kept.
