# Verification of comeback's core

comeback backs up a directory tree to a Google Cloud Storage bucket as a Merkle
tree of encrypted blobs named by the SHA-1 hash of their contents. This project
models its core in Dafny and proves what the program depends on:

- **The graph scheduler** (`internal/dag/visit.go`), modelled twice. `DagTables`
  and `DagState` hold the shared state as values and the lock-held sections as
  the atomic steps of a transition system over any number of resolver and visitor
  workers. `DagInvariant` and `DagSteps` give the inductive invariant that every
  step keeps; `DagTheorems` and `DagProgress` what holds of whole runs: order,
  coverage, the exact cycle verdict, no lost wake-up, no deadlock, termination.
  `DagHeap` is the same program over mutable records, each method proved to change
  the state as the transition system says, up to the whole traversal under an
  arbitrary schedule. `DagLimits` shows exactly when a kind of worker is missed if
  there is none of it.
- **Saving and restoring** (`internal/save`, `internal/restore`, `internal/blob`,
  `internal/repr`). `Scores` and `Listing` are the codecs, `BlobStores` and
  `BlobListing` the store stack and the bucket's listing, `Semaphores` and
  `SaveStack` the hand-off of two semaphores through that stack. `Save` has one
  visit of a save over mutable objects and the scores defined by recursion over a
  tree; `SaveVisits` is a transition system of any number of visits at once, down
  to the steps of looking up, creating and remembering, with failures and with
  caches that forget. `SaveSchedule` ties it to the traversal (`Moments`) and shows
  that caches stay sound and that the root score depends neither on the schedule
  nor on the caches; `SavedBlobs` that all blobs are in the bucket afterwards, with
  caches as without; `Pruning` says what exclusions leave of a tree, and `RelPaths`
  that relative paths, and so score map keys, tell files apart; `SaveRuns` has two
  whole saves step by step. `Restore` reads a tree back, `RestoreOrder` follows the
  file system operations of concurrent visits, `RestoreReads` what their traversal
  finds in the bucket, `Modes` and `Timevals` have the mode bits and times that they
  set, and `RoundTrip` puts the whole story together.
- **Verifying and collecting garbage** (`internal/verify`, `verify.go`, `gc.go`).
  `VerifyLog` is the text of the log, `Verify` the traversal with its memo,
  `BackupVerifies` shows that a saved backup passes it, `KnownStructure` is the memo
  read back from the log, `GarbageSelection` and `GarbagePipeline` what is garbage and
  how it is moved away, and `GarbageSafety` shows that a verified backup stays
  restorable throughout.
- **Claiming a bucket** (`internal/registry`): `Registry` and `RegistryJobs`.

Hashing, encryption, key derivation, protocol buffers, RFC 3339 and base64 text,
regular expressions and GCS are parameters. What is assumed of them is written
down as predicates: `CryptoSound`, `WireSound`, `FormatSound`, `NumbersSound`,
`CipherSound`, and, for one clause only, `Authenticates`. The hash is not assumed
to be injective: results about content say that the content comes back or that two
different blobs have the same score (`Clash`).

Findings about the code itself, each stated as a lemma or noted below:

- With no visitors a traversal visits nothing, and reports success just when every
  start node can be resolved and depends on nothing (`NoVisitorsVerdict`); with no
  resolvers it can get stuck just when there is something to start with and a visitor
  to wait for it (`NoResolversStuckIff`); with neither it succeeds at once, having
  done nothing (`NobodySucceeds`).
- A last log line without its newline loses a byte and is rejected
  (`UnterminatedRecordIsRejected`), contrary to the comment at `verify.go:98-99`.
- The output of one verify run that had a memo is not enough for garbage
  collection: there is a run whose own root is garbage by it
  (`OutputAloneIsNotEnough`). `OutputAloneProtectsIff` says exactly when it is
  enough, and `NoMemoSaysAll` that it is without a memo for the directories reached.
- Modification times do not come back as they were unless they are a whole number
  of microseconds, not before 1970, and fit in 64 bits as nanoseconds, which they do
  up to the year 2262 (`TimeSetIsExactIff`): the conversion used at
  `internal/restore/visitor.go:277` wraps around, rounds up, and truncates toward zero
  (`TimesThatChange` has examples).
- An entry whose own mode does not let its owner read it cannot be restored by anyone
  but the superuser: its mode is set first, and its time then through a descriptor
  opened for reading (`internal/restore/visitor.go:117-129`, `265-267`).
  `NextOperationSucceeds` shows that this is the only way in which the next operation
  of a visit fails.
- A score map key is made later than the stat information it is made from. If the file
  has been written in between, with another modification time, the same key can stand
  for different contents (`OutdatedKey`); otherwise it cannot (`KeyDeterminesContent`).
- The dependency lists of verify can hold duplicates, contrary to
  `internal/dag/types.go:32`: two files of the same content are enough
  (`TwinsAreRepeated`); `ChildrenDistinctIff` says exactly when there are none. The
  scheduler is proved for lists with duplicates.
- A file whose save fails leaves the scores of its first chunks on its node
  (`internal/save/visitor.go:126-131`), as in the run of `FailedFileKeepsScores`; no
  listing is ever made from them (`ScoresAreRight`).

## Model

| member | source | states |
|---|---|---|
| DagHeap.VisitState.Reinsert | internal/dag/visit.go:515-532 | Puts a record on the list of its state, and changes nothing else |
| DagHeap.VisitState.Broadcast | internal/dag/visit.go:369-382 | Wakes the workers of each kind exactly when the update has given them something to do |
| DagHeap.VisitState.AddNodes | internal/dag/visit.go:492-507 | New nodes get one record each however often they are listed; known ones keep theirs |
| DagHeap.VisitState.BeginResolve | internal/dag/visit.go:652-661 | The section before FindDependencies, as the transition system has it |
| DagHeap.VisitState.EndResolve | internal/dag/visit.go:673-700 | The section after it, loops over the dependency list included |
| DagHeap.VisitState.BeginVisit | internal/dag/visit.go:605-614 | The section before Visit |
| DagHeap.VisitState.EndVisit | internal/dag/visit.go:626-644 | The section after it, with its loop over the dependants |
| DagHeap.VisitState.Fail | internal/dag/visit.go:391-398 | Only the first error is recorded, under an update |
| DagHeap.VisitState.Look | internal/dag/visit.go:542-564 | What a worker at the head of its loop does: sleep, return or begin a call |
| DagHeap.VisitState.TakeStep | internal/dag/visit.go:574-597 | Every step of every worker changes the mutable state as the transition system says |
| DagHeap.ReachedAdvances | internal/dag/visit.go:69-104 | Every step lengthens the log or leaves fewer workers runnable, and the log is bounded: a run over a finite graph ends |
| DagHeap.Visit | internal/dag/visit.go:43-130 | A whole traversal under any schedule ends, in a state that a run reaches, and returns what that state says: the error of the first call to fail, if any has |
| DagHeap.Verdict | internal/dag/visit.go:104-129 | The first error, else some unsatisfied node, else success |
| DagTablesProofs.AddNodesKeeps | internal/dag/visit.go:486-507 | Adding nodes keeps the counts, back-pointers and worklists in agreement |
| DagTablesProofs.FinishResolveKeeps | internal/dag/visit.go:674-698 | So does recording a dependency list, duplicates and self-loops included |
| DagTablesProofs.FinishVisitKeeps | internal/dag/visit.go:627-642 | So does telling every dependant of a visit |
| DagSteps.StepKeepsInv | internal/dag/visit.go:201-280 | The whole invariant is inductive: every step of any worker keeps it |
| DagSteps.CallsAreDefined | internal/dag/visit.go:626-698 | No step follows a pointer to a record that does not exist |
| DagTheorems.RunKeepsInv | internal/dag/visit.go:43-130 | Every state of every run satisfies the invariant |
| DagTheorems.CheckInvariantsHolds | internal/dag/visit.go:173-362 | All of the run-time checks of the source hold at every lock release |
| DagTheorems.CounterIsExact | internal/dag/visit.go:156-171 | depsUnsatisfied counts the unvisited entries of the dependency list, and the back-pointers to the node in the whole table |
| DagTheorems.CallsAreOrdered | internal/dag/visit.go:29-42 | Visit(n) begins only after FindDependencies(n) and all transitive visits have succeeded; no call begins twice, nor after a failure |
| DagTheorems.VisitedReachesNoCycle | internal/dag/visit.go:31-36 | Nothing that reaches a cycle is ever visited, in failing runs either |
| DagTheorems.NodesAreReachable | internal/dag/visit.go:29-30 | At an error-free end the records are exactly of the nodes reachable from the start nodes |
| DagTheorems.SuccessCoversAll | internal/dag/visit.go:29-42 | Success means that each reachable node was resolved once and visited once, and nothing else was called |
| DagTheorems.CycleVerdictIsExact | internal/dag/visit.go:113-127 | Nodes are left unsatisfied if and only if the reachable graph has a cycle; they are exactly the reachable nodes that reach one |
| DagTheorems.OutcomeIsExact | internal/dag/visit.go:104-129 | When calls fail only if they must, success if and only if all reachable calls can succeed and there is no cycle |
| DagTheorems.FirstErrorIsFinal | internal/dag/visit.go:243-251 | The first error is never replaced, the log only grows, and no call begins once the error is set |
| DagTheorems.FirstErrorIsFirstFailure | internal/dag/visit.go:391-398 | In every run the error recorded is the one given by the first action that is a failing call, and there is none if no action is one |
| DagProgress.NoLostWakeUp | internal/dag/visit.go:468-484 | A worker asleep has nothing to wake up for, in every reachable state |
| DagProgress.NoDeadlock | internal/dag/visit.go:400-484 | While some worker has not returned, some step is enabled |
| DagProgress.ExitIsPermanent | internal/dag/visit.go:403-452 | An exit condition that holds once holds ever after: no worker leaves while work can still appear |
| DagProgress.LogIsBounded | internal/dag/visit.go:38-41 | No event happens twice, so a finite graph bounds the log: at most six events for each node |
| DagProgress.RunsAreBounded | internal/dag/visit.go:538-598 | A bound on the length of all runs over a finite graph |
| DagLimits.NoVisitorsFalseSuccess | internal/dag/visit.go:82-129 | With no visitors there is a run that succeeds without visiting a start node |
| DagLimits.NoVisitorsCoverIff | internal/dag/visit.go:82-92 | With no visitors, whatever the start nodes and the number of resolvers, all that is reachable is visited if and only if nothing is started |
| DagLimits.NoVisitorsVerdict | internal/dag/visit.go:104-129 | With no visitors, success is reported if and only if every start node can be resolved and depends on nothing |
| DagLimits.NoResolversStuckIff | internal/dag/visit.go:70-104 | With no resolvers, some run gets stuck if and only if there is a start node and at least one visitor |
| DagLimits.NobodySucceeds | internal/dag/visit.go:82-129 | With neither resolvers nor visitors every run reports success at once, with nothing resolved or visited |
| DagLimits.LoneNodeSucceeds | internal/dag/visit.go:538-598 | A node that depends on nothing has a whole run, of one worker of each kind, that succeeds |
| DagLimits.LoneNodeFails | internal/dag/visit.go:574-597 | And one that returns the error of its visit |
| Semaphores.StepKeepsBalance | internal/save/semaphore.go:58-124 | Every step of every call keeps permits equal to the calls that must release them |
| Semaphores.RunKeepsBalance | internal/save/save.go:59-67 | So it does over all runs of any number of workers |
| Semaphores.IdleMeansBalanced | internal/save/visitor.go:201-320 | When no call is in progress, whatever way the calls ended, both semaphores are full again |
| Semaphores.ReleasesNeverBlock | internal/save/semaphore.go:39-45 | A release always finds a permit to give back, and never panics |
| Semaphores.NothingHeldInGCS | internal/save/save.go:150-157 | A worker in the GCS call holds neither semaphore |
| Semaphores.PlaintextIsBounded | internal/save/save.go:168-172 | Buffers not yet encrypted number at most the two capacities together |
| Semaphores.SomeoneProceeds | internal/save/save.go:140-185 | No reachable state with a call in progress is stuck |
| Semaphores.CallsEnd | internal/save/visitor.go:201-320 | Every step of a call brings it nearer to its end |
| Semaphores.WayOfACall | internal/save/save.go:140-185 | A call that nothing stops goes through all the stores in order to GCS and back, letting go of each permit on the way in |
| Semaphores.StoppedCallLeaves | internal/save/semaphore.go:58-105 | A call that is stopped goes no further in: it leaves by the deferred functions it has passed |
| SaveStack.Worker.Save | internal/save/visitor.go:201-266 | The outermost acquisition and its deferred release, through the whole stack, on every early exit |
| SaveStack.Worker.SaveAcquiring | internal/save/semaphore.go:58-87 | Acquires, passes on, and releases unless a store further in has |
| SaveStack.Worker.SaveReleasingRead | internal/save/semaphore.go:96-105 | Releases the read semaphore while holding the other |
| SaveStack.Worker.SaveIfUnknown | internal/blob/existing_scores_store.go:47-66 | A known score ends the call without reaching the inner release |
| Scores.HexBijection | internal/blob/score.go:53-78 | A string parses as a score if and only if it is the hex form of that score |
| Scores.DigitsDecode | internal/blob/score.go:53-54 | Strings of lower-case digit pairs, and no others, decode |
| Scores.ParseHexScore | internal/blob/score.go:57-72 | Accepts exactly what the regular expression does, and decodes it |
| Scores.HexLooksLike | internal/blob/score.go:76-78 | Digits are those of base sixteen in lower case, the more significant first |
| VerifyLog.FormatRecord | internal/verify/record.go:52-63 | The loop writes the record as specified |
| VerifyLog.ParseRecord | internal/verify/record.go:66-104 | The loop parses what the specification parses, errors included |
| VerifyLog.NodeRoundTrip | internal/verify/record.go:117-151 | A node name parses as the node |
| VerifyLog.NodeBijection | internal/verify/record.go:117-151 | A text parses as a node if and only if it is the name of the node |
| VerifyLog.SplitIsExact | internal/verify/record.go:66-76 | Splitting at blanks loses nothing and leaves no blank |
| VerifyLog.RecordParsesIff | internal/verify/record.go:66-104 | A text parses as a record if and only if its parts are a time and the names of node and children, in order |
| VerifyLog.RecordLooksLike | internal/verify/record.go:52-63 | What a record looks like |
| VerifyLog.RecordRoundTrip | internal/verify/record.go:50-104 | A formatted record parses as itself, its time cut to the second |
| VerifyLog.RecordStringIsOneLine | internal/verify/record.go:50-51 | A formatted record contains no newline |
| VerifyLog.ParseVerifyOutput | verify.go:91-137 | The loop over lines returns the records before the first failure, and whether there was one |
| VerifyLog.LogRoundTrip | verify.go:213-228 | A log written whole parses as the records written, to the second |
| VerifyLog.UnterminatedLineLosesAByte | verify.go:115-116 | A last line without newline is parsed without its last byte |
| VerifyLog.UnterminatedRecordIsRejected | verify.go:97-124 | So a record that lost its newline is rejected, after those before it |
| Listing.MarshalDir | internal/repr/marshal.go:105-131 | The loop marshals as specified, errors included |
| Listing.UnmarshalDir | internal/repr/unmarshal.go:115-144 | The loop unmarshals as specified, errors included |
| Listing.EntryRoundTrip | internal/repr/marshal.go:46-94 | An entry can be converted if and only if it has one of the six types, and converts back to its normal form |
| Listing.ListingRoundTrip | internal/repr/marshal.go:101-131 | A listing marshals exactly when all types are among the six, and unmarshals as its normal form |
| Listing.NormalizeIsIdempotent | internal/repr/marshal.go:75-83 | The normal form is its own normal form |
| Listing.NormalizeKeeps | internal/repr/marshal.go:46-94 | A listing keeps all of an entry but the containing device, targets of what is no symlink and device numbers of what is no device |
| Listing.ListingIsAcceptedIff | internal/repr/unmarshal.go:115-144 | A blob is a listing if and only if it ends with the magic byte, parses, and all entries have one of six types and scores of the right length |
| Listing.AbsentFieldsAreZero | internal/repr/unmarshal.go:66-110 | Fields that are absent read as zero |
| Listing.TypesCorrespond | internal/repr/marshal.go:27-44 | The two tables of types, and that they undo each other |
| Listing.MarshalDirIsInjective | internal/repr/unmarshal.go:113-144 | Equal blobs come from listings with equal normal forms |
| Listing.TypelessEntriesAreRejected | internal/repr/unmarshal.go:88-92 | A listing with an entry that has no type is rejected |
| Listing.FileRoundTrip | internal/repr/unmarshal.go:146-157 | File chunks come back |
| Listing.KindsAreDisjoint | internal/repr/marshal.go:96-99 | No blob reads both as a directory and as a file |
| BlobStores.Store.SaveCiphertext | internal/blob/existing_scores_store.go:47-66 | Short circuit, creation and update of the set; a creation may take effect and be reported as failed |
| BlobStores.Store.Save | internal/blob/encrypting.go:37-52 | The stack of stores, encryption first |
| BlobStores.Store.Load | internal/blob/checking.go:39-57 | Read, check the hash, decrypt; each can fail |
| BlobStores.NamesAreDistinct | internal/blob/gcs_store.go:285-288 | Different scores have different object names |
| BlobStores.LoadsOnlyWhatHasTheScore | internal/blob/checking.go:39-57 | Whatever is in the bucket, a score loads as a blob if and only if the object of that name has the score and decrypts to the blob |
| BlobStores.LoadsOnlyTheBlob | internal/blob/checking.go:39-57 | From a damaged bucket the score of a blob loads as the blob, or not at all, or an object has the same score as another blob |
| BlobStores.SaveIsExact | internal/blob/existing_scores_store.go:47-66 | Saving succeeds if and only if the score is known or the object is created; a known score spares the creation, and nothing else changes |
| BlobStores.SavesTheCiphertext | internal/blob/encrypting.go:37-52 | What is saved, and scored, is the ciphertext; a blob that cannot be encrypted is not saved |
| BlobStores.SaveKeepsSound | internal/blob/existing_scores_store.go:24-30 | Known scores stay a subset of the stored ones, and objects are what their names say |
| BlobStores.LoadsBack | internal/blob/encrypting.go:37-70 | A saved blob loads as itself, or another stored blob has its score |
| BlobListing.SavedObjectParses | internal/blob/gcs_store.go:91-204 | The record of a saved blob passes all checks and parses as its score |
| BlobListing.ParsesIffConsistent | internal/blob/gcs_store.go:94-203 | A record parses as a score if and only if its name is that of the score and all three checksums in its metadata agree |
| BlobListing.AnyCaseDecodesIff | internal/blob/gcs_store.go:160-190 | A checksum decodes if and only if it is the bytes in hex, each digit in either case |
| BlobListing.SixteenWaysMissNothing | internal/blob/gcs_store.go:209-228 | Sixteen listings by first digit show every blob exactly as often as one would |
| Save.ShouldSkipLoop | internal/save/dependency_resolver.go:133-141 | A path is skipped if and only if some exclusion matches it |
| Save.FindDependencies | internal/save/dependency_resolver.go:62-122 | The children are the listed entries that are not excluded, in order; fails if and only if the directory cannot be read or one of those entries cannot be used |
| Save.KeptIsSorted | internal/save/dependency_resolver.go:35-41 | They are still sorted by name, and are exactly the entries not excluded |
| Save.PrunedChildren | internal/save/dependency_resolver.go:30-37 | The tree that is saved has below each directory what FindDependencies finds there |
| Pruning.NodeIsKept | internal/save/dependency_resolver.go:62-122 | Every node on disk that is not excluded, nor anything above it, is saved: same path, attributes and content |
| Pruning.NodeWasThere | internal/save/dependency_resolver.go:30-37 | Every node saved is such a node |
| SaveSchedule.PrunedTreeIsSaved | internal/save/save.go:46-115 | A save that succeeds gives every node on disk that is not excluded, nor below anything that is, its right scores, a file those of its content on disk, with what they name stored |
| SaveSchedule.NothingExcludedIsSaved | internal/save/dependency_resolver.go:30-33 | No path that is saved is excluded, nor is any path above it |
| RelPaths.RelPathIsSlashed | internal/save/dependency_resolver.go:86-92 | A relative path is the names on the way down, with slashes between them |
| RelPaths.RelPathIsInjective | internal/save/score_map.go:44-53 | No two nodes of a tree have the same relative path |
| Save.EqualKeysEqualStats | internal/save/score_map.go:44-53 | Score map keys are equal if and only if path, permissions, owner, modification time, inode and size all are |
| Save.HasKeyIff | internal/save/score_map.go:31-42 | A node has a key if and only if it is a file modified at least five minutes ago |
| RelPaths.KeysTellFilesApart | internal/save/score_map.go:26-55 | In a tree of distinct file names the keys tell files apart: the contents that they stand for exist |
| Save.KeyDeterminesContent | internal/save/score_map.go:36-55 | What the five minutes are for: two keys of a file, made at any times in its history from stat information whose modification time still holds, are equal only if the content is the same |
| Save.OutdatedKey | internal/save/score_map.go:36-42 | From stat information that no longer holds one key can be made for two contents |
| Save.ChunksConcat | internal/save/visitor.go:175-190 | The chunks of a file, of any length, put together are its content |
| Save.ChunksAreFull | internal/save/visitor.go:212-240 | All chunks but the last have the full size |
| Save.Visitor.SaveFile | internal/save/visitor.go:151-198 | With or without a score map hit the scores are those of the content and the blobs are stored; a hit saves nothing; a failure leaves the scores of the chunks before the one that could not be saved; success is remembered |
| Save.Visitor.SaveChunks | internal/save/visitor.go:175-190 | The loop over chunks gives the scores of the content, in order |
| Save.Visitor.SaveDir | internal/save/visitor.go:268-320 | The score is that of the listing of the children, as they are now |
| Save.Visitor.Visit | internal/save/visitor.go:83-148 | Unsupported types fail; scores that are there are left; otherwise the node gets the scores of its kind, or a prefix of them if the visit fails, and they are stored |
| Save.Visitor.Forget | internal/save/score_map.go:26-55 | The score map may lose any of its entries |
| Save.EntriesFromChildren | internal/save/visitor.go:294-305 | Right scores of all children make the right listing |
| Save.NodesMakeEntries | internal/save/visitor.go:294-305 | Child nodes with the attributes and the scores of trees make the entries of the trees |
| Save.FindRootScore | internal/save/save.go:187-218 | Finds the score of the one root, in whatever order nodes come; fails if and only if there is not exactly one root with one score |
| SaveVisits.ActKeepsOwn | internal/save/visitor.go:122-320 | Every step of a visit, whatever other visits have done, brings it to where what it has saved and is saving is right |
| SaveVisits.ActKeepsShared | internal/blob/existing_scores_store.go:47-66 | Every step of a visit keeps known scores stored, score map entries right and stored, and objects what their names say |
| SaveVisits.ActProgresses | internal/save/visitor.go:83-320 | Every step of a visit, whatever its fortune, brings it nearer to its end |
| SaveVisits.GivesUpOnlyInMisfortune | internal/save/visitor.go:83-320 | A visit of a file, directory or symlink gives up only when reading, waiting, creating an object or passing on goes wrong |
| SaveVisits.CachesSpareWork | internal/save/visitor.go:154-161 | A hit in the score map spares reading the file, a known score the creation of its object |
| SaveVisits.CachesLearn | internal/save/visitor.go:192-195 | A file saved is remembered, and an object created is known |
| SaveVisits.CreatingIsExact | internal/blob/existing_scores_store.go:47-66 | A creation that is not refused takes effect, and only one that succeeds lets the visit go on |
| SaveVisits.OnlyThenAreTheyChanged | internal/save/visitor.go:122-320 | No other step changes the score map, the known scores or the bucket |
| SaveSchedule.SaveKeepsSound | internal/save/save.go:69-115 | So does every save, any number of visits interleaved along any traversal, failures and forgetting included |
| SaveSchedule.CachesStaySound | internal/blob/existing_scores_store.go:24-30 | At every moment every known score and every score map entry names stored blobs, those of the content that the key determines |
| SaveSchedule.ScoresAreRight | internal/save/visitor.go:122-148 | At every moment every visited node has the scores defined by recursion over the tree, all stored; any other node with scores is one whose visit has begun |
| SaveSchedule.RootScoreIsScheduleIndependent | internal/save/save.go:101-107 | When the traversal succeeds the root has its recursive Merkle score, whatever the schedule and the caches |
| SaveSchedule.RootScoreIsFound | internal/save/save.go:117-126 | And that is the score found among the nodes passed on, in any order |
| SavedBlobs.SuccessfulSaveHolds | internal/save/save.go:46-130 | A save that succeeds has every blob of the tree in the bucket, and the root score to find them by |
| SavedBlobs.SaveFromEmptyMap | internal/save/save.go:46-130 | So does one that starts with an empty score map, with nothing assumed of stat information but distinct file names |
| SavedBlobs.CachesDoNotMatter | internal/save/visitor.go:154-195 | Two saves that succeed, with caches and without, on any schedules, give all nodes the same scores and leave the same objects wherever scores do not collide |
| SaveRuns.EmptyDirectoryIsSaved | internal/save/save.go:46-130 | An empty directory has a whole save that succeeds |
| SaveRuns.FailedFileKeepsScores | internal/save/visitor.go:126-131 | A file of which the second chunk fails has a save that leaves the score of the first on its node |
| Restore.FindDependencies | internal/restore/dependency_resolver.go:53-108 | The children are the entries of the listing named by the one score; every error path fails |
| Restore.ReadsListingIff | internal/restore/dependency_resolver.go:68-95 | A directory is read from the one listing that it has, and not at all if it has none or several |
| Restore.WriteFileContents | internal/restore/visitor.go:134-185 | The loop writes the content that the scores name; it succeeds if and only if all can be read and every operation on the file does |
| Restore.RestoresOneTree | internal/restore/visitor.go:70-132 | An entry restores to one tree only |
| Restore.SaveThenRestore | internal/restore/restore.go:39-90 | What was saved restores to the tree saved, unless two stored blobs clash; by induction over trees of any depth |
| Restore.ReturnedIsFaithful | internal/restore/restore.go:39-90 | That tree has the same names, types, contents, targets, modes and times |
| Restore.RestoreIsFaithful | internal/restore/restore.go:39-90 | Whatever a restore makes of a saved tree, from a bucket damaged in any way, is faithful to it, or two blobs clash |
| Restore.RestoresOnlyTheTree | internal/blob/checking.go:39-57 | The same by induction, for subtrees: each listing and chunk is read as it was saved, or not at all |
| RestoreReads.PiecesAreChunks | internal/restore/visitor.go:151-177 | The chunks loaded one by one make up the content, and can all be loaded if and only if it can be read |
| RestoreReads.SuccessReadsAll | internal/restore/restore.go:75-89 | A traversal that succeeds has found every listing and loaded every chunk: what it restores is a tree that the bucket holds whole |
| RestoreReads.RestoredIsReadOff | internal/restore/dependency_resolver.go:53-108 | Whatever tree can be restored is the one that the traversal finds |
| RestoreReads.WholeTreeCanBeRead | internal/restore/dependency_resolver.go:53-108 | If the bucket holds a whole tree every call of the traversal can succeed, and there is no cycle |
| RestoreReads.RestoreSucceedsIff | internal/restore/restore.go:75-89 | When calls fail only if they must, a restore succeeds if and only if the bucket holds a whole tree |
| Modes.SyscallMode | internal/restore/visitor.go:188-201 | The system's bits are put together one by one, and are those that SystemModeBits is about |
| Modes.SystemModeBits | internal/restore/visitor.go:188-201 | Each bit of the system's mode is set if and only if its source bit is, and there are no others |
| Modes.KeptModeBits | internal/fs/convert_file_info.go:26-29 | A listing keeps the permission bits and three others, each where it belongs |
| Modes.SystemModeIsInjective | internal/fs/convert_file_info.go:26-29 | No two modes that a listing can hold are restored alike |
| Modes.KeptModeComesBack | internal/restore/visitor.go:203-217 | A file given a mode is seen to have the bits of it that a listing keeps |
| Timevals.TimeSetIsNear | internal/restore/visitor.go:263-286 | The time set is a whole number of microseconds: less than one above from 1970 to 2262, less than two above before, and centuries away if the nanoseconds do not fit in 64 bits |
| Timevals.TimeSetIs | vendor/golang.org/x/sys/unix/timestruct.go:49-60 | The time set, in whole microseconds, for every time |
| Timevals.TimeSetIsExactIff | vendor/golang.org/x/sys/unix/timestruct.go:49-60 | A time is set as it is if and only if it is a whole number of microseconds, not before 1970 and, rounded up, within 64 bits of nanoseconds |
| Timevals.TimesThatChange | vendor/golang.org/x/sys/unix/timestruct.go:51-58 | Four times that are not: one rounded up, one carried into the next second, one before 1970, one that wraps around from 2264 to 1680 |
| RestoreOrder.OperationEffect | internal/restore/visitor.go:80-132 | An operation changes its target and the time of the directory it is in, and nothing else |
| RestoreOrder.TargetEffect | internal/restore/visitor.go:80-132 | And what it makes of its target; nothing that is there is ever created anew |
| RestoreOrder.MoveKeepsEntries | internal/restore/visitor.go:117-129 | What each visit has reached stays true whatever the others do |
| RestoreOrder.VisitedStaysRestored | internal/restore/visitor.go:37-43 | What has been visited has its content, target, mode and time as set at every later moment: nothing is written into a directory after its own mode and time |
| RestoreOrder.NextOperationSucceeds | internal/restore/visitor.go:80-115 | No operation of a visit fails for what other visits have done; the next one fails if and only if it is setting a time through a mode that forbids reading |
| RestoreOrder.VisitGoesOn | internal/restore/visitor.go:70-132 | A visit of a file, directory or symlink has a next operation until it is complete, after as many as there are names and chunks and three more; other types stop short |
| RestoreOrder.SuccessRestoresAll | internal/restore/restore.go:75-89 | When the traversal succeeds the whole tree is in the file system, and all modes let the owner read unless the superuser restores |
| RestoreOrder.TheRestIsUntouched | internal/restore/restore.go:34-35 | Whatever does not have a name in the tree is as it was |
| RoundTrip.HeldTreeIsFound | internal/restore/restore.go:39-90 | What a restore finds in a bucket that holds a saved tree is that tree, or two stored blobs clash |
| RoundTrip.BackupRoundTrip | internal/restore/restore.go:34-90 | A tree saved by one traversal and restored by another is in the file system again, whatever the schedules, caches and failures survived, and whatever has become of the bucket, or two blobs clash |
| RoundTrip.SavedTreeComesBack | internal/restore/restore.go:39-90 | The half of it that restores |
| RoundTrip.BackupCanBeRestored | internal/restore/restore.go:39-90 | If the bucket has kept the objects the restore of a successful save succeeds when its calls fail only if they must |
| RoundTrip.BackupCanBeVerified | internal/verify/verify.go:71-96 | And so does a verify run on its root score, given all scores in the bucket |
| RoundTrip.PrunedBackupRoundTrip | internal/save/dependency_resolver.go:30-37 | With exclusions, what is on disk and not excluded, nor below anything that is, comes back as it is on disk |
| RoundTrip.ExcludedIsLeftAlone | internal/save/dependency_resolver.go:30-37 | And the restore does not touch the names of the rest |
| RoundTrip.TimesAndModesComeBackIff | internal/restore/visitor.go:117-129 | Exactly when the time and the mode are then as they were |
| Verify.Resolver.constructor | internal/verify/dependency_resolver.go:44-64 | The loop collects the set of all scores |
| Verify.Resolver.FindDependencies | internal/verify/dependency_resolver.go:78-179 | Score check, memo, load and parse; a record is sent exactly when a directory that was not known is resolved |
| Verify.Resolver.Visit | internal/verify/visitor.go:52-88 | File chunks are loaded and recorded; directories are left alone |
| Verify.CollectChildren | internal/verify/dependency_resolver.go:128-162 | One child for each score of each entry; symlinks with scores and unknown types fail |
| Verify.AcceptedIff | internal/verify/dependency_resolver.go:128-162 | A listing is accepted if and only if each entry is a file, a directory or a symlink without scores |
| Verify.MemoSparesLoads | internal/verify/dependency_resolver.go:85-106 | A known directory, or a chunk, is resolved without loading anything, if its score is known |
| Verify.ChildrenDistinctIff | internal/verify/dependency_resolver.go:157-161 | The dependencies have no repetition if and only if no file has a chunk twice and no two entries of a kind share a score |
| Verify.TwinsAreRepeated | internal/verify/dependency_resolver.go:173-176 | Two files of the same content make a repetition |
| Verify.SentRecordsAreTrue | internal/verify/record.go:37-43 | In any run, failed ones included, only true records are sent |
| Verify.SentIff | internal/verify/dependency_resolver.go:164-176 | A record is sent if and only if a directory not known was resolved, or a chunk read, with the time of that and the true dependencies |
| Verify.SameReach | internal/verify/verify.go:37-40 | With a true memo the run reaches what the blobs lead to, and nothing else |
| Verify.SuccessCertifies | internal/verify/verify.go:27-43 | Success: all scores reachable by the blobs are known, every directory has a true memo entry or record, every file chunk was read if files are read |
| Verify.MemoDoesNotMatter | internal/verify/verify.go:37-40 | Runs with different true memos visit the same nodes |
| Verify.VerdictIsExact | internal/verify/verify.go:71-96 | When loads fail only for what is not there: success if and only if every node reached is in order and there is no cycle |
| BackupVerifies.SavedTreeVerifies | internal/verify/verify.go:71-96 | A verify run on the root of a saved tree, given all scores in the bucket, accepts all listings, meets no cycle and succeeds when its calls fail only if they must, or two stored blobs clash |
| KnownStructure.ParseKnownStructure | verify.go:236-273 | The loop builds the memo from the records that are not stale; a log that does not parse gives none |
| KnownStructure.LastFreshRecordWins | verify.go:255-266 | A node is known if and only if it has a record at most ninety days old, as the last of those has it |
| KnownStructure.TrueLogGivesTrueMemo | verify.go:234-235 | From true records comes a true memo |
| KnownStructure.LogStaysTrue | verify.go:275-317 | The log of true records stays one when a run with its memo appends to it |
| GarbageSelection.ParseGCInput | gc.go:61-93 | All scores mentioned, of nodes and of children |
| GarbageSelection.FilterToGarbage | gc.go:97-126 | Passes on the scores that are not accessible, in order, or a prefix if cancelled |
| GarbageSelection.GarbageIsTheRest | gc.go:95-96 | A score is garbage if and only if it was listed and is not accessible |
| GarbageSelection.ReachableIsNotGarbage | gc.go:16-20 | After a successful verify, and with the whole log as input, nothing reachable from the roots is garbage |
| GarbageSelection.OutputIsExact | internal/verify/dependency_resolver.go:99-171 | The output of a successful run mentions exactly the directories reached and not known, their children, and the chunks read |
| GarbageSelection.OutputAloneProtectsIff | gc.go:16-20 | Exactly when that output alone keeps everything reachable from being garbage |
| GarbageSelection.NoMemoSaysAll | internal/verify/verify.go:37-40 | It does whenever no directory reached was in the memo |
| GarbageSelection.OutputAloneIsNotEnough | internal/verify/dependency_resolver.go:99-106 | A successful run with a true memo by whose output its own root is garbage |
| GarbagePipeline.StepKeepsInv | gc.go:139-194 | Every step of any cloner or deleter keeps the invariant |
| GarbagePipeline.NothingIsLost | gc.go:319-345 | At all times, whatever fails, each blob is under its own name or in the garbage with its content; accessible ones under their own name |
| GarbagePipeline.ExactlyGarbageIsMoved | gc.go:347-356 | When a collection ends without failure, of what was listed exactly the accessible is left |
| GarbagePipeline.SomethingIsPossible | gc.go:228-345 | Until all goroutines are at rest some step is possible, one that is no failure if nothing is wrong yet: no collection gets stuck |
| GarbagePipeline.StepDoesWork | gc.go:109-202 | Every step leaves less to do: a collection ends |
| GarbagePipeline.Collect | gc.go:208-350 | A whole collection over mutable state, under any schedule and any failures, ends; nothing is lost, and without failure exactly the garbage listed is moved |
| GarbagePipeline.FailedIff | gc.go:208-350 | A collection fails if and only if something in it goes wrong |
| GarbagePipeline.RequestsTakeEffect | gc.go:152-192 | A copy or deletion that is not refused takes effect, and nothing else changes the bucket |
| GarbageSafety.BackupSurvivesCollection | gc.go:208-350 | A verified backup restores to the same tree at every moment of a collection |
| Registry.GcsBucket.CreateObject | internal/registry/gcs.go:278-294 | Creation with a generation precondition: never over an existing object |
| Registry.GcsBucket.LookForMarker | internal/registry/gcs.go:205-238 | Looks for the marker and checks it if it is there |
| Registry.GcsBucket.ClaimBucket | internal/registry/gcs.go:240-301 | Writes a marker if there still is none, as the step of the race says; the client has the bucket if and only if it is answered, the marker can be made and there was none |
| Registry.CreationIsExact | internal/registry/gcs.go:278-294 | A creation takes effect if and only if there is no such object and the request arrives |
| Registry.CompatibleIff | internal/registry/gcs.go:304-362 | A marker opens if and only if salt and ciphertext decode and the key derived from the password decrypts |
| Registry.NewMarkerIsCompatible | internal/registry/gcs.go:304-362 | The marker that a client writes is compatible with its password, and gives the same key |
| Registry.StepKeepsInv | internal/registry/gcs.go:37-41 | Every step of any client keeps: open clients open the marker that is in the bucket; at most one wrote it |
| Registry.ObjectsAreFinal | internal/registry/gcs.go:86-91 | Neither the marker nor any recorded job is ever changed or removed |
| Registry.ClaimIsExclusive | internal/registry/gcs.go:33-36 | All clients that succeed hold keys that open the one marker, the same key if ciphertexts authenticate under one key only |
| Registry.OpenIff | internal/registry/gcs.go:198-301 | In any race a client ends with the bucket and a key if and only if it was answered a marker that its password opens with the key, or wrote the marker for the key where there was none |
| Registry.LoneClientOpens | internal/registry/gcs.go:240-301 | A client alone on an empty bucket gets it |
| RegistryJobs.RecordBackup | internal/registry/gcs.go:83-109 | Records the job if and only if its name is free and the request is answered |
| RegistryJobs.JobRoundTrip | internal/registry/gcs.go:111-160 | A recorded job parses as itself, to the second |
| RegistryJobs.JobParsesIff | internal/registry/gcs.go:111-160 | An object is read as a job if and only if its name has the time, and its metadata the name and the score |
| RegistryJobs.ListedIff | internal/registry/gcs.go:162-195 | A listing can be read if and only if every object in it, other than that named by the prefix alone, is a job |
| RegistryJobs.ListBackups | internal/registry/gcs.go:162-195 | The loop parses every object but the one named by the prefix alone, or fails |
| RegistryJobs.RecordedJobsAreListed | internal/registry/gcs.go:162-195 | A listing shows exactly the recorded jobs |

## Left out

- Integer width: counters are unbounded integers; the source's are 64 bits wide. The nanoseconds of a modification time do wrap around (`Timevals`).
- Context cancellation: a call that is cancelled is one that fails, at any time.
- Lock granularity: the model lets other workers in between returning from a call and looking for more work, so its runs include all of the program's; waking up is re-checking the loop condition.
- FindDependencies is a fixed function of the node, apart from failing; in the program a directory may change while it is being listed.
- DagHeap.Visit: the workers' own call stacks are not in the heap; each worker is the program counter of the transition system.
- DagProgress.NoDeadlock: outside calls are taken to return.
- internal/save/semaphore.go: a semaphore is a counter; the order in which waiting goroutines get permits is not modelled.
- SaveStack.Worker.Save: runs one call alone; a wait for a permit that is not free ends by being cancelled, or not at all. The interleavings of many calls are those of `Semaphores`.
- SaveStack.Worker.SaveAcquiring: as SaveStack.Worker.Save.
- Semaphores.PlaintextIsBounded: a buffer counts until its encryption has ended, not until it is collected.
- Save.Visitor.Visit: one visit at a time in the heap; what other visits do meanwhile is covered by `SaveVisits`, and by `Semaphores` for permits.
- Verify.Resolver.FindDependencies: a load that fails in passing and a context that is done are one flag, `interrupted`.
- The checks and panics on checksums in the reply to a creation (internal/blob/gcs_store.go:330-349), which compare library output with itself.
- The retrying, caching and paging layers between the program and GCS; a bucket is a map with atomic operations.
- internal/cache: a score map is a map that may forget.
- SaveSchedule.SaveKeepsSound: that stat information determines content is assumed of the score map key (`StatDetermines`); `KeyDeterminesContent` shows it of files whose modification times are taken from a clock less than five minutes behind, and still hold when the key is made. A file does not change while it is being read.
- Hard links: their target is kept in a listing, but restoring ignores it, as the source does.
- Owners, access times and the umask; restoring ownership is not supported by the source.
- RestoreOrder.NextOperationSucceeds: permissions of directories that were there before do not make operations fail; names are single path components and distinct within a directory.
- That a backup saved after a garbage collection is sound: the persisted set of existing scores is not shrunk by it, so its precondition can fail until scores are listed anew (state.go:97-111).
- GarbageSafety.BackupSurvivesCollection: the bucket is taken not to change between the verify run and the collection.
- The capacities of the channels of a collection: a send that has to wait is one that has not happened yet.
- Times that RFC 3339 text cannot hold, outside the years 0 to 9999 or within a day of either end, for time zones: nothing is assumed of how they are parsed (`FormatSound`).
- Times of records are any that can be written; they only matter for staleness.
- FUSE mounting (internal/comebackfs), listing, password handling, configuration, profiling and progress output, user and group lookup: input and output.
