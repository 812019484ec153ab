# A verified model of the aks3 storage engine

aks3 is an S3 server that keeps each bucket as a tree of files and directories, with lock
tables, renames and fsyncs as its only coordination. This project models that engine in
Dafny and proves what its design promises:

* **The publication protocol** (`LockTable`, `Publication`, `PublicationLog`,
  `PublicationInvariant`, `PublicationSafety`, `PublicationBuckets`, `PublicationProgress`,
  `PublicationAlone`, `PublicationWitness`, `PublicationDropped`, `PutIntegrity`).
  Puts, deletes, bucket creation, bucket deletion and listings are tasks of a transition system.
  A step is one filesystem call or one lock operation; any call may fail, a request waiting for
  a lock may be cancelled, and the process may be killed and reopened between any two steps. One
  inductive invariant is kept by every step. It gives exclusion, the link between manifests and
  data, agreement with a flat map, survival of acknowledged operations, bucket deletion that
  loses nothing, and progress. For a request left alone, it is exact when it succeeds and what
  it makes of the whole tree.
  Where a promise has a limit, a reachable state shows it.
* **Durable commits and deletes** (`Disks`, `DurableCommit`, `DurableDelete`, `DeletePoints`,
  `DurableRuns`, `Atomic`). A disk may forget, at a power loss, any directory entry that was not synced. Directories have
  generations, so an entry of a lost directory is not an entry of its successor. Runs of
  commits, deletes and power losses are related state by state; the methods, any call of which
  may fail, are proved to make those steps.
* **The tree as a flat map** (`Utf8`, `Paths`, `Order`, `Trees`, `Walk`, `FlatMap`,
  `ObjectTrees`). Keys become paths and back; a tree represents a map from keys to objects;
  put, delete with pruning, head, get, list and the emptiness test refine that map.
* **Listing and pagination** (`Listing`). A page is the one that the fields of the request call
  for, and following continuation tokens gives the unpaged listing.
* **Integrity and reads** (`Crc`, `Crc32c`, `Crc64Nvme`, `Checksums`, `Ranges`). The theory of
  reflected CRCs, once for any register width, the two CRC loops it applies to, the verifying
  stream composed with the staging loop, and range resolution composed with the chunked reader.
* **Version manifests** (`Meta`).

`dafny verify dfyconfig.toml` checks everything.

Strings are sequences of UTF-8 bytes, one `char` below 256 for each byte, so that ordering,
splitting and escaping are those of the source. Digests and base64 are parameters
(`Checksums.Library`), an etag is a free constructor over the bytes it is of, and a JSON
manifest is the history it holds. In the protocol a key is the path of its encoded
components, which `Paths.KeyPathInjective` justifies.

Some promises have limits, which the code's comments state in part. The model follows the code,
shows a state in which the promise fails, and says exactly when it holds:

* A manifest always has its data. It describes it exactly when the last visible step on its key
  was not the data rename of an overwrite with other bytes, so only an overwrite that is in its
  gap, or was stopped there, breaks it, and any later operation that publishes the key mends it
  (`PublicationSafety.ManifestsHaveTheirData`; `PublicationWitness.OverwriteCanTear` is such a
  state, for any two bodies).
* The lock tables are said to drop an entry once nothing holds it. A waiter that is cancelled
  after the last holder has let go leaves the entry behind (`PublicationWitness.EntryCanLeak`).
  A name nobody is busy with has an entry exactly if the last task to let go of it was cancelled
  (`PublicationSafety.EntriesLeft`).
* A put that returns an error after its manifest rename has published all the same
  (`PublicationWitness.FailedPutCanPublish`). The files of a key are at all times what the
  visible steps on it make them (`PublicationSafety.FilesFollowTheLog`), and are the flat map's
  value whenever the last of these is a success (`PublicationSafety.SettledKeysMatchTheMap`).
* A delete removes the manifest before the data so that no crash leaves a manifest without its
  bytes. That holds for kills. At a power loss it holds until the data is unlinked, and again
  once the deepest directory left is synced: the manifest can come back alone exactly while the
  data is unlinked and that directory is not synced (`DeletePoints.ManifestAlone`;
  `DeletePoints.PairsLeft` says which of the two files can be left at every point). A put's order
  holds throughout (`DurableRuns.PutUnderPowerLoss`).
* A request dropped while it awaits a filesystem call lets go of its locks, and the call goes on.
  If the call has landed by then, or never lands, this is a request whose next calls fail, and all
  of the above holds (`PublicationDropped.DropIsFailure`). If it lands later it can take the data
  of a put acknowledged meanwhile (`PublicationDropped.LateUnlinkStrips`). A late call changes a
  key's files exactly as `PublicationDropped.LateCallChanges` says, and leaves a manifest without
  data exactly if it is the unlink of data that by now has a manifest, or the rename of a manifest
  whose data has gone (`PublicationDropped.LateCallStrips`).

## Model

| member | source | states |
|---|---|---|
| LockTable.EnterKeeps | crates/engine/src/fs_engine.rs:299-323 | getting or creating a lock entry and cloning it keeps every holder and waiter on the table's own object, and exclusion |
| LockTable.SetPhaseKeeps | crates/engine/src/fs_engine.rs:166-219 | granting a lock object on its own holders alone is enough for exclusion by name; releasing and dropping the clone keep the invariant too |
| LockTable.CancelKeeps | crates/engine/src/fs_engine.rs:192-219 | a waiter cancelled mid-wait, whose clone just goes, keeps the lock invariant but leaves its name's entry in the table |
| LockTable.SoleOwner | crates/engine/src/fs_engine.rs:192-219 | a reference count of one means that no task owns a clone of the entry's object |
| LockTable.SharedOwner | crates/engine/src/fs_engine.rs:192-219 | a count above one means that another task is still busy with that name |
| LockTable.RemoveIfKeeps | crates/engine/src/fs_engine.rs:192-219 | the conditional removal that ends a release never strands a holder or waiter on a stale object, and leaves no entry for a name that nobody else is busy with |
| PublicationInvariant.FsStepEffect | crates/engine/src/fs_engine.rs:512-585 | a filesystem step touches only the task's own staged file, its own key under the key lock, its own bucket's directories under the bucket lock, and a bucket's existence under the exclusive lock; it keeps the tree closed under parents and the task's own view true |
| PublicationInvariant.OtherView | crates/engine/src/fs_engine.rs:58-93 | what one task does never falsifies what another, holding its locks, relies on |
| PublicationInvariant.NoEntryNoTree | crates/engine/src/fs_engine.rs:432-434 | an `objects/` with no entry has no directory of any key, however deep |
| PublicationInvariant.BareRemoval | crates/engine/src/fs_engine.rs:435-437 | the recursive removal of such a tree removes no manifest and no data file |
| PublicationInvariant.StepKeepsInv | crates/engine/src/fs_engine.rs:386-664 | every step of every request, every cancellation, a kill, the sweep and the reopening keep the invariant |
| PublicationInvariant.RunKeepsInv | crates/engine/src/fs_engine.rs:232-245 | so does every run, through any number of kills and reopenings |
| PublicationSafety.LocksAreSafe | crates/engine/src/fs_engine.rs:299-323 | in every reachable state holders and waiters have the very object in the table, at most one task holds a key, and an exclusive bucket holder excludes all others |
| PublicationSafety.EntriesLeft | crates/engine/src/fs_engine.rs:76-77 | a name that no task is busy with has an entry left exactly if the last task to let go of it was cancelled, so at rest the tables hold those names and no others |
| PublicationSafety.TablesEmptyAtRest | crates/engine/src/fs_engine.rs:76-77 | after any run in which no wait was cancelled, both tables are empty at rest |
| PublicationWitness.EntryCanLeak | crates/engine/src/fs_engine.rs:192-219 | such an entry can be left: one task lets go while another waits, and then that one is cancelled |
| PublicationSafety.ManifestsHaveTheirData | crates/engine/src/fs_engine.rs:502-585 | every manifest on disk has its data file, and describes its bytes exactly when the last visible step on the key was not the data rename of an overwrite with other bytes; that overwrite is then in, or was stopped in, its gap, and the data is its whole body |
| PublicationSafety.FilesAreWholePuts | crates/engine/src/fs_engine.rs:512-585 | every manifest on disk is one put's, a single unversioned entry with that put's content type, user metadata, time and checksum that describes its body, and every data file one put's whole body, both of that key |
| PublicationWitness.OverwriteCanTear | crates/engine/src/fs_engine.rs:502-511 | any overwrite with other bytes can be killed after its data rename, leaving all of the new body under the old manifest |
| PublicationSafety.OrphansAreBounded | crates/server/tests/crash.rs:561-577 | data files no manifest names never outnumber the operations now in, or stopped in, their two-step window |
| PublicationSafety.FilesFollowTheLog | crates/engine/src/fs_engine.rs:565-664 | in every reachable state a key's files are exactly what the visible steps on it, in their order, make them |
| PublicationSafety.SettledKeysMatchTheMap | crates/engine/src/fs_engine.rs:565-664 | whenever the last thing that happened to a key is a success, or nothing, its files are the value of a flat map after the completed operations |
| PublicationSafety.FreeKeysMatchTheMap | crates/engine/src/fs_engine.rs:565-664 | so they are whenever the key's lock is free, unless the last operation to show anything of the key was stopped half way; what was stopped before it does not matter |
| PublicationSafety.RecordedUnderTheLock | crates/engine/src/fs_engine.rs:565-664 | each visible step and each success is recorded while its task holds its key's lock, so the order on a key is the order of its lock |
| PublicationSafety.UnpublishedStepsChangeNoKey | crates/engine/src/fs_engine.rs:512-585 | until its first visible step, and so also when it aborts before it, an operation changes no key |
| PublicationSafety.StepFrame | crates/engine/src/fs_engine.rs:512-664 | a key's files change only by a task that starts or continues publishing that key |
| PublicationSafety.PutSurvives | crates/engine/src/fs_engine.rs:565-584 | from its manifest rename on, a put's exact entry and bytes stay on disk, through kills and reopenings, until an operation on that key starts publishing |
| PublicationSafety.DeleteSurvives | crates/engine/src/fs_engine.rs:640-664 | from the removal of its data on, a delete's key stays absent until a put of it starts publishing |
| PublicationSafety.SuccessPoint | crates/engine/src/fs_engine.rs:576-584 | an operation that succeeds in a run was at some point of the run about to, with its key's lock held and, if it is a put, its bucket there |
| PublicationSafety.AcknowledgedStays | crates/server/tests/crash.rs:561-577 | in every run from an empty directory, the key of an acknowledged put holds at the end its bytes and a manifest with all it came with, and that of an acknowledged delete nothing, unless another operation has since started to publish that key |
| PublicationWitness.FailedPutCanPublish | crates/engine/src/atomic.rs:111-116 | any put can return an error, its last sync having failed, and have replaced the object all the same |
| PublicationBuckets.BucketRequestsRemoveNoFile | crates/engine/src/fs_engine.rs:386-446 | no step of bucket creation, its undo or bucket deletion removes a manifest or data file |
| PublicationBuckets.DeletedBucketsHoldNothing | crates/engine/src/fs_engine.rs:417-446 | when a bucket's directory goes it was there, and every key of it is already absent |
| PublicationBuckets.PutsKeepToLiveBuckets | crates/engine/src/fs_engine.rs:565-576 | a put past its second check has its bucket, and neither publishes into nor re-creates a deleted one |
| PublicationBuckets.OnlyCreateMakesBuckets | crates/engine/src/fs_engine.rs:386-415 | a bucket comes into being only by a step of bucket creation of that name |
| PublicationBuckets.BucketAtSuccess | crates/engine/src/fs_engine.rs:386-446 | in every reachable state, the step that makes a bucket deletion a success leaves the bucket gone and every key of it absent, and one that makes a creation, a put or a listing a success has the bucket there |
| PublicationBuckets.AcknowledgedFound | crates/engine/src/fs_engine.rs:386-446 | whatever request a run from an empty directory acknowledges found, at a point of the run after it began, what it needs: a put, a delete or a listing its bucket, a creation its name free, a bucket deletion its bucket with no key directory in it |
| PublicationBuckets.AcknowledgedBucketStays | crates/engine/src/fs_engine.rs:386-446 | a bucket whose creation was acknowledged stays, through kills and reopenings, until a bucket deletion removes it; one whose deletion was acknowledged stays gone until a creation makes it again |
| PublicationBuckets.FailedCreateGivesBack | crates/engine/src/fs_engine.rs:403-412 | a creation that cannot write its metadata gives the name back and leaves all else as it was, or, if that fails too, leaves the bare directory; it is never acknowledged |
| PublicationBuckets.OnlyTasksTouchTheTree | crates/engine/src/fs_engine.rs:332-349 | arrivals, cancellations, a kill, the sweep and the reopening touch nothing outside the staging directory |
| PublicationProgress.NoDeadlock | crates/engine/src/fs_engine.rs:58-93 | in every reachable state with an unfinished operation some task can go on, with each lock granted to its longest waiter |
| PublicationProgress.RunsAreFinite | crates/engine/src/fs_engine.rs:299-323 | however they are interleaved, the operations begun take at most their total rank of steps |
| PublicationProgress.StuckMeansDone | crates/engine/src/fs_engine.rs:58-93 | a run that cannot be continued, even if each lock is granted to its longest waiter only, has finished every operation |
| PublicationAlone.EndsAlone | crates/engine/src/fs_engine.rs:386-664 | any request with no other active and no failing call runs to its end |
| PublicationAlone.AnswersAlone | crates/engine/src/fs_engine.rs:386-664 | and has then succeeded exactly if it found what it needs, a bucket deletion exactly if the bucket was there with no key directory in it; the whole tree is then what it should be, directories made and pruned included, and otherwise exactly what it was |
| PublicationAlone.PruneIsExact | crates/engine/src/fs_engine.rs:1060-1074 | a directory on the way to a deleted key goes exactly if nothing was in it but that key's files and the next directory on the way |
| PublicationLog.DescribedUnlessOverwritten | crates/engine/src/fs_engine.rs:502-511 | over any history of visible steps, a manifest fails to describe its data exactly when the last step was an overwrite's first |
| PublicationLog.DataComesFirst | crates/engine/src/fs_engine.rs:512-664 | over any such history there is no manifest without data, and data without a manifest only half way through an operation |
| PublicationLog.WholePuts | crates/engine/src/fs_engine.rs:512-585 | over any such history the manifest is one put's entry and the data one put's whole body |
| PublicationLog.StoryIsReplay | crates/engine/src/fs_engine.rs:565-664 | a history whose last event on a key is a success gives that key the flat map's value |
| PublicationDropped.DropIsFailure | crates/engine/src/fs_engine.rs:58-93 | dropping a request in any of its filesystem calls, when that call never lands, is a run of the protocol that changes no file and leaves only its locks to be let go |
| PublicationDropped.LateCallChanges | crates/engine/src/fs_engine.rs:512-664 | a call that lands after its request let go of its locks changes a key's files exactly if it is a rename with its staged file still there, an unlink of a file that is there, or the removal of the key's bucket tree |
| PublicationDropped.LateCallStrips | crates/engine/src/fs_engine.rs:640-664 | from any reachable state such a call leaves a manifest without data exactly if it unlinks data that by now has a manifest, or puts a manifest where the data has gone |
| PublicationDropped.LateUnlinkStrips | crates/engine/src/fs_engine.rs:640-664 | this can happen: any put acknowledged after a delete of its key was dropped in its data unlink can lose its data to that unlink |
| PutIntegrity.StagePut | crates/engine/src/fs_engine.rs:521-576 | a staged put publishes the body that was sent, with an entry that carries that body's checksum, which is the client's own if one was sent, and everything else the request came with |
| PutIntegrity.StoredChecksumsAreTrue | crates/engine/src/fs_engine.rs:524-585 | if every put was staged so, then in every reachable state the checksum in a manifest is that of the data beside it, wherever the manifest describes its data |
| DurableCommit.OutcomeFiles | crates/engine/src/atomic.rs:117-136 | whatever subset of a commit's unsynced entries survives, every other file is as it was and the destination is old, or new and whole |
| DurableCommit.FsyncStage | crates/engine/src/atomic.rs:117-136 | syncing the directories deepest first removes one unsynced link of the chain at a time |
| DurableCommit.CommitIsDurable | crates/engine/src/atomic.rs:192-210 | with the whole chain synced, everything reachable is durable again |
| DurableDelete.OutcomeFile | crates/engine/src/fs_engine.rs:640-664 | whatever subset of a delete's removals survives, every file but the key's two is as it was, and those are whole or gone |
| DurableDelete.DeleteIsDurable | crates/engine/src/fs_engine.rs:652-663 | syncing only the deepest directory that is left makes the removals and all the pruning durable |
| DurableDelete.NothingLeft | crates/engine/src/fs_engine.rs:1080-1094 | if no directory is left to sync, nothing reachable is unsynced |
| DurableDelete.RestSurvives | crates/engine/src/atomic.rs:117-136 | a power loss between operations loses nothing |
| DeletePoints.DeleteEndMeans | crates/engine/src/fs_engine.rs:640-664 | a delete that ends leaves a durable disk with the key's two files gone and every other file as it was |
| DeletePoints.LostDelete | crates/engine/src/fs_engine.rs:640-664 | a power loss at any point of a delete leaves a durable disk, every other file as it was, and the two each whole or gone; the data is there for sure until it is unlinked, and both are gone for sure after the sync |
| DeletePoints.PairsLeft | crates/engine/src/fs_engine.rs:626-664 | at every point of a delete, pruning included, exactly which of the two files a power loss can leave: both, any with the data, any at all, neither, as the delete goes on |
| DeletePoints.ManifestAlone | crates/engine/src/fs_engine.rs:630-637 | the manifest can come back without its data exactly while the data is unlinked and the deepest directory left is not synced |
| DurableRuns.CommitEndMeans | crates/engine/src/atomic.rs:117-136 | a commit that ends leaves a durable disk with the file in place and every other file as it was |
| DurableRuns.LostCommit | crates/engine/src/atomic.rs:117-136 | a power loss at any point of a commit leaves a durable disk with the destination old, or new and whole, and nothing else changed |
| DurableRuns.RunsStayDurable | crates/engine/src/atomic.rs:192-210 | in every run of commits, deletes and power losses at any of their points, from a durable disk, the disk is durable after each |
| DurableRuns.AcknowledgedIsDurable | crates/engine/src/atomic.rs:117-136 | in every such run, what an acknowledged commit or delete did to a file holds until a later one touches that file |
| DurableRuns.FilesAreWhole | crates/engine/src/atomic.rs:117-136 | in every such run each file was there at first or is the whole of what some commit to it wrote |
| DurableRuns.PutUnderPowerLoss | crates/engine/src/fs_engine.rs:565-584 | no power loss at any point of a put leaves its new manifest over old or missing data |
| Atomic.DirsToSync | crates/engine/src/atomic.rs:192-210 | the chain is the directory and its parents, deepest first, up to and including the first that exists |
| Atomic.StagedFile.Drop | crates/engine/src/atomic.rs:139-147 | a committed file has no temporary name to remove; one that was not committed keeps its name only if the removal itself fails |
| Atomic.StagedFile.Commit | crates/engine/src/atomic.rs:117-136 | it succeeds exactly when nothing obstructs the path and no call fails, and is then a step of a run; every state on the way, and the last of a commit that fails, is a point of this commit; once renamed the file is in place, and before that no file has changed |
| Atomic.Publish | crates/engine/src/atomic.rs:122-136 | directories, rename and syncs, in that order, with every state a point of the plan |
| Atomic.CreateDirAll | crates/engine/src/atomic.rs:117-136 | making the missing directories from the top down extends the chain one link at a time, and changes no file |
| Atomic.SyncChain | crates/engine/src/atomic.rs:117-136 | syncing the chain deepest first leaves no link unsynced, or stops at the call that fails with the file still in place |
| Atomic.WriteAtomic | crates/engine/src/atomic.rs:157-166 | staging the chunks and committing is a commit of their concatenation, in its end state and at every point; it fails exactly when it is obstructed or a call fails, and only a failing call leaves a temporary name |
| Atomic.RemoveIfPresent | crates/engine/src/fs_engine.rs:1045-1051 | the file is taken, whether or not it was there, or the call failed and nothing changed |
| Atomic.PruneEmptyDirs | crates/engine/src/fs_engine.rs:1060-1074 | directories go from the deepest up, each empty when its turn comes, and the loop stops at the given one, at one that cannot be removed, or at a call that fails |
| Atomic.DeepestExisting | crates/engine/src/fs_engine.rs:1080-1094 | the result exists and nothing deeper does; no result means that none exists down to the stop |
| Atomic.DeleteObject | crates/engine/src/fs_engine.rs:640-664 | if no call fails it succeeds, and is then a step of a run; every state on the way is a point of this delete in its order, manifest before data before directories before sync |
| Paths.ComponentRoundTrip | crates/engine/src/paths.rs:73-141 | decoding undoes encoding for every key component |
| Paths.EncodedIsPlain | crates/engine/src/paths.rs:73-100 | an encoded component is never empty, `.`, `..`, reserved, or with a slash or NUL in it |
| Paths.EncodedIsTame | crates/engine/src/paths.rs:73-100 | an encoded component has no control byte, DEL or backslash, and one with none of these and nothing special about it is its own name |
| Paths.KeyRoundTrip | crates/engine/src/paths.rs:145-171 | every key is the decoding of its own path, whose names are all plain |
| Paths.KeyPathInjective | crates/engine/src/paths.rs:145-171 | different keys have different paths |
| Paths.DataNameIsReserved | crates/engine/src/paths.rs:198-213 | whatever the version id, its data file's name is one reserved component other than the manifest's |
| Paths.DataNameInjective | crates/engine/src/paths.rs:183-213 | two versions never share a data file, and a valid id is used unescaped |
| Paths.FilesAreApart | crates/engine/src/paths.rs:145-213 | a key's file is never another key's file, nor a directory on the way to any key |
| Paths.EncodeComponent | crates/engine/src/paths.rs:73-100 | the loop computes the encoding that the round trip is about |
| Paths.DecodeComponent | crates/engine/src/paths.rs:110-141 | the loop computes the decoding, error for error |
| Paths.KeyToRelPath | crates/engine/src/paths.rs:145-151 | the loop computes the key's path |
| Paths.RelPathToKey | crates/engine/src/paths.rs:160-171 | the loop computes the path's key, or the first component's error |
| Paths.DataFileName | crates/engine/src/paths.rs:198-213 | the loop computes the data file's name |
| Walk.ReadObjectDir | crates/engine/src/walk.rs:102-146 | a directory's manifest flag is exact, and its children are exactly the decodable, non-reserved subdirectories, each once, in the order of what they decode to |
| Walk.FrontierStep | crates/engine/src/walk.rs:52-85 | popping a directory and pushing its children loses no directory and never walks one twice |
| Walk.WalkableDecodes | crates/engine/src/walk.rs:52-85 | a directory the walk reaches always decodes to a key, so the undecodable branch is dead |
| Walk.SortedKeys | crates/engine/src/walk.rs:52-85 | the walk terminates on every finite tree and returns, sorted, exactly the decoded paths of the manifest-bearing directories it can reach, one for each |
| FlatMap.OnlyItsOwn | crates/engine/src/fs_engine.rs:908-916 | in a tree that represents a map, a key's manifest, and its data, are there exactly when the key is in the map |
| FlatMap.EmptyTreeEmptyMap | crates/engine/src/fs_engine.rs:863-869 | `objects/` is empty exactly when the map is |
| FlatMap.AddFiles | crates/engine/src/fs_engine.rs:565-584 | with its directories made, adding a key's two files represents the map with that key set |
| FlatMap.DropFiles | crates/engine/src/fs_engine.rs:640-664 | removing a key's two files represents the map without it, up to directories on the way to it |
| FlatMap.PruneOne | crates/engine/src/fs_engine.rs:1060-1074 | removing an empty directory on that way leaves every object of the map in place |
| FlatMap.StopPruning | crates/engine/src/fs_engine.rs:1060-1074 | stopping at a directory that is not empty leaves no directory too many: pruning is exact |
| ObjectTrees.FoundAreObjects | crates/engine/src/walk.rs:52-85 | in a tree that represents a map the walk finds the directories of exactly its keys, also when `a` and `a/b` are both keys |
| ObjectTrees.KeysOfTheMap | crates/engine/src/walk.rs:52-85 | so the keys it returns are the map's, each once, strictly ascending |
| ObjectTrees.ObjectTree.constructor | crates/engine/src/fs_engine.rs:386-415 | a new bucket represents the empty map |
| ObjectTrees.ObjectTree.PutObject | crates/engine/src/fs_engine.rs:512-585 | a put sets its key in the map and nothing else |
| ObjectTrees.ObjectTree.DeleteObject | crates/engine/src/fs_engine.rs:640-664 | a delete removes its key from the map, present or not, and the tree is that of the smaller map |
| ObjectTrees.ObjectTree.PruneEmptyDirs | crates/engine/src/fs_engine.rs:1060-1074 | the pruning loop leaves a tree that represents the map exactly |
| ObjectTrees.ObjectTree.HeadObject | crates/engine/src/fs_engine.rs:621-625 | head finds the map's entry, or nothing |
| ObjectTrees.ObjectTree.GetObject | crates/engine/src/fs_engine.rs:596-619 | get finds the map's entry and bytes, or nothing |
| ObjectTrees.ObjectTree.HasAnyEntry | crates/engine/src/fs_engine.rs:863-869 | the bucket counts as empty exactly when the map is empty |
| ObjectTrees.ObjectTree.ListObjectsV2 | crates/engine/src/fs_engine.rs:689-764 | walk, reads and page together answer the request, by its own fields, from the map's keys |
| Listing.FoldIsShared | crates/engine/src/fs_engine.rs:953-956 | every key under a common prefix folds into it |
| Listing.FoldIsMonotone | crates/engine/src/fs_engine.rs:723-763 | folding keeps key order, so the keys of a group are contiguous |
| Order.LessIsByteOrder | crates/engine/src/walk.rs:52-85 | key order is that of the first byte that differs, the end of a string before any byte |
| Listing.ItemIsListedAs | crates/engine/src/fs_engine.rs:953-956 | a key is listed as what it is up to and with the first non-empty delimiter past the prefix, and as itself exactly when there is none |
| Listing.ItemsByFields | crates/engine/src/fs_engine.rs:717-763 | the listing's items are exactly those that some live key, starting with the request's prefix, is listed as, past its token and past its `start_after` |
| Listing.PageAnswers | crates/engine/src/fs_engine.rs:717-763 | the page of those items shows exactly what is listed up to its token, once and in order, no more than asked for, and has a token exactly if there is more |
| Listing.ItemsAscend | crates/engine/src/fs_engine.rs:723-763 | items come in strictly ascending order, objects and common prefixes together, so no name is listed twice |
| Listing.GroupIsLast | crates/engine/src/fs_engine.rs:731-740 | a group already listed is always the last common prefix emitted |
| Listing.AddsIsExact | crates/engine/src/fs_engine.rs:723-750 | the pass's test, which looks only at that last group, adds a key's item exactly when it is new and listed |
| Listing.ListObjectsV2 | crates/engine/src/fs_engine.rs:689-764 | one pass gives the first `max_keys` items, truncated exactly when there is one more, with the last item emitted as token, and so the answer that the request's own fields call for |
| Listing.LaterBound | crates/engine/src/fs_engine.rs:937-942 | a token past the bound replaces it, whatever `start_after` is |
| Listing.ResumeAfter | crates/engine/src/fs_engine.rs:689-764 | resuming after any item, object or common prefix, lists exactly the items after it |
| Listing.PagesAreTheListing | crates/engine/src/fs_engine.rs:689-764 | following tokens with any page size of at least one ends, and the pages together are the unpaged listing |
| Listing.PagesTogether | crates/engine/src/fs_engine.rs:689-764 | and so the answer to the same request with room for everything |
| Crc.FoldConcat | crates/engine/src/checksum.rs:183-199 | however a body is cut into chunks, the register ends the same |
| Crc.FoldLinear | crates/engine/src/checksum.rs:156-179 | the register is linear over xor, in itself and in the bytes |
| Crc.FoldInjective | crates/engine/src/checksum.rs:156-179 | different registers stay different through the same bytes |
| Crc.FoldTellsApart | crates/engine/src/checksum.rs:156-179 | from one register, different bytes of equal number, no more than the register has, lead to different registers |
| Crc.BurstIsDetected | crates/engine/src/checksum.rs:183-212 | two bodies of equal length that differ only within as many consecutive bytes as the register has, four or eight, have different checksums |
| Crc32c.ReflectedStep | crates/engine/src/checksum.rs:156-166 | the loop of eight shifts is the step those laws are about |
| Crc32c.Update | crates/engine/src/checksum.rs:183-199 | the loop over a chunk folds it into the register |
| Crc32c.IsLawful | crates/engine/src/checksum.rs:47-53 | the 32-bit register with this polynomial meets every law the CRC lemmas ask for |
| Crc32c.CheckValue | crates/engine/src/checksum.rs:47-53 | the check value of CRC-32C (section 12.1 of RFC 3720) comes out, which pins the polynomial and both inversions |
| Crc64Nvme.ReflectedStep | crates/engine/src/checksum.rs:169-179 | the loop of eight shifts is the step those laws are about |
| Crc64Nvme.Update | crates/engine/src/checksum.rs:183-199 | the loop over a chunk folds it into the register |
| Crc64Nvme.IsLawful | crates/engine/src/checksum.rs:47-53 | the 64-bit register with this polynomial meets every law the CRC lemmas ask for |
| Crc64Nvme.CheckValue | crates/engine/src/checksum.rs:47-53 | the check value of CRC-64/NVME comes out |
| Checksums.Checksummer.constructor | crates/engine/src/checksum.rs:118-129 | a new checksummer has seen nothing |
| Checksums.Checksummer.Update | crates/engine/src/checksum.rs:183-199 | it has then seen the chunk after all it saw before, whatever the chunking |
| Checksums.Checksummer.FinalizeBase64 | crates/engine/src/checksum.rs:203-212 | the value is the digest that the algorithm's name stands for, of the whole body seen |
| Checksums.VerifyingStream.PollNext | crates/api/src/checksum.rs:256-287 | bytes pass unchanged; the end is replaced by an error exactly when the whole body's checksum is not the client's or no trailer came; afterwards the stream only ends; the computed value is never missing |
| Checksums.StageBody | crates/engine/src/fs_engine.rs:521-552 | over every chunking, expected value, broken transport and failing write, a put goes on exactly when nothing is wrong with it, and then the staged bytes are those sent and the recorded checksum is both their digest and the value the client named, in the header or the trailer; a mismatch means that it named another, a missing trailer that none came |
| Checksums.DamageIsRefused | crates/api/src/checksum.rs:205-217 | a body damaged within four (CRC-32C) or eight (CRC-64/NVME) consecutive bytes after the client summed it is refused as a mismatch |
| Ranges.SpanIsSelection | crates/engine/src/fs_engine.rs:968-999 | the span holds exactly the bytes selected one by one by section 14.1.2 of RFC 9110, within 64 bits, and a range is invalid exactly when it selects none |
| Ranges.FileStream.Next | crates/engine/src/fs_engine.rs:1009-1042 | each item is the next non-empty chunk of at most 64 KiB, or one error after which the stream ends; it is an I/O error exactly when one of the reads made for it failed |
| Ranges.Drain | crates/engine/src/fs_engine.rs:1009-1042 | for every pattern of short and failing reads the chunks are the span's bytes, with an I/O error exactly when a read failed; a file that is too short gives what it has and then one error |
| Ranges.Get | crates/engine/src/fs_engine.rs:596-619 | the offset and length returned are those of the selection, and resolver and reader together deliver exactly the selected bytes, as many as that length unless there is an error |
| Meta.HistoryIsNewestFirst | crates/engine/src/meta.rs:94-130 | after any upserts and removes the history holds each surviving id once, as last written, newest write first |
| Meta.OverwriteNeverGrows | crates/engine/src/meta.rs:117-120 | a write puts its entry at the head, and rewriting an id never lengthens the history |
| Meta.VersionManifest.Upsert | crates/engine/src/meta.rs:117-120 | the versions become those of the history with this write added |
| Meta.VersionManifest.Remove | crates/engine/src/meta.rs:123-129 | the first entry with the id goes and is returned, or there is none; in a history it is the id's last write, and there is one exactly if the id survives |
| Meta.VersionManifest.Latest | crates/engine/src/meta.rs:101-103 | the entry of the most recent write that no later operation undid, or nothing if no id survives |

## Left out

- Power loss during concurrent commits, or before the first directories are durable: the chain to sync stops at the first directory that exists, so durability is promised for serial runs from a durable layout.
- Reads that race an overwrite: reads take no lock, and the source documents the window.
- Runs that go on after a dropped request's call has landed late: one late call on any reachable state is covered exactly, and not what follows it.
- The manifest's own staged file, and the bucket's metadata file, in the protocol: a manifest is replaced in one step, as its rename makes it; in `Atomic` both renames are commits.
- The fairness of the lock library: exclusion holds for grants in any order, and first come first served is used only for progress.
- Atomic.DeleteObject: is stated for a key whose two file names are not directories and whose directories are not files, which `Paths.FilesAreApart` gives for every tree the engine makes.
- Power loss after a commit or delete failed half way and others followed: an operation that fails is covered up to the next power loss, and durability of a run is for operations that are acknowledged or lost.
- ObjectTrees.ObjectTree.PutObject: does not model failing calls or filesystem limits such as names that are too long.
- Header parsing: which checksum a put asks for (`detect`), bucket name rules, timestamps and content types are parameters or absent.
- The digests MD5, SHA-1, SHA-256 and CRC-32, base64, JSON and the S3 error table.
- HTTP, TLS, identity, virtual hosts, configuration and the command line.
