# Verification of the blobber's storage core

A blobber keeps the files of allocations for their owners, proves on challenge that it still has
them, and records every change as a new version that can be rolled back.  This project models the
parts of it where correctness spans several functions, and proves what they promise.

| file | what it models |
|---|---|
| `Bytes.dfy` | bytes, digests, levels laid out as bytes, powers of two |
| `Paths.dfy` | paths and their ancestors |
| `ValidationTree.dfy` | the validation tree: levels, root, and the writer that stores all nodes but the root |
| `ValidationNodes.dfy` | the nodes of the tree each by itself: what the root is, and where the stored ones lie |
| `ValidationProof.dfy` | the reader: node indexes, byte offsets, range proofs, and the client's check |
| `ValidationBinding.dfy` | why an accepted proof is about the true leaves |
| `ValidationClamp.dfy` | requests that end at the number of leaves, which the clamp lets through |
| `FixedMerkleTree.dfy` | the fixed tree for 2^d leaves (1024 in the program), its paths and their check |
| `LeafContent.dfy` | the content of one leaf of the fixed tree, cut out of every block |
| `SeqQueue.dfy` | the queue that puts uploaded chunks in order |
| `UploadHashing.dfy` | writers, queue and hasher as a state machine |
| `CommitProtocol.dfy` | commits and rollbacks of one allocation, as functions of its state |
| `CommitRows.dfy` | the rows as a tree, and what the database deletes along with other rows |
| `CommitOrder.dfy` | when the order of the changes of a batch matters |
| `CommitOutcome.dfy` | what a commit does to the rows its changes name, and a rollback to the record |
| `CommitSafety.dfy` | what every run of commits, rollbacks and restarts keeps |
| `CommitSizes.dfy`, `CommitAccounting.dfy` | the size recorded for an allocation |
| `CommitDirs.dfy` | the directories of a batch are what its concurrent `Mkdir` calls make |
| `CommitStore.dfy` | the same steps as methods that update an object in place |
| `ObjectPath.dfy` | finding a file by global block number |
| `RefTree.dfy`, `RefNodes.dfy` | incremental hashes and sizes, on values and on nodes updated in place; adding a sorted child |
| `ObjectTree.dfy` | building a tree from rows |
| `Mkdir.dfy` | concurrent creation of directories under one transaction lock |
| `LockPool.dfy` | the pool of reader/writer mutexes by key |
| `AllocationCache.dfy` | allocation rows behind a session cache and a global cache |

Functions without a contract of their own are the specification the rows below speak of: `Root`,
`StoredNodes`, `PlanIndexes`, `Fold` for the trees; `Column` and `ContentLevels` for leaf contents;
`EffectOf`, `Gone`, `Promote`, `Commit`, `Rollback` and `Resolve` for the protocol; `Incremental`,
`Full` and `Consistent` for the reference tree; `Step` in `Mkdir`, `LockPool` and `AllocationCache`
for one atomic action of one participant.  Each state machine's steps are as fine as the locks allow: a participant moves
between any two of another's steps.

## Choices

- A hash is any function to 32-byte strings.  That proofs bind is stated under the assumption that no
  two different strings among those actually hashed collide (`CollisionFree`), since no such function
  is injective on all strings.
- The client's side of both proofs lives in another repository; `Fold` and `FoldPath` state it: put
  left nodes before and right nodes after, hash pairs, hash a lone last node by itself.
- The floating point logarithm and ceilings are the exact integer ones.
- A lookup hash is the path itself; the table's unique index gives at most one live and one
  soft-deleted row for it (`goose/migrations/1698861371_full_db_snapshot.sql:757`).
- A row's id is its path with the number of the commit that inserted it, and a row names its parent's
  id.  Deleting a row for good deletes every row below it, as the foreign key on `parent_id` has it
  (`goose/migrations/1698861371_full_db_snapshot.sql:855-856`).
- The changes of a batch are independent (`AllIndependent`): no row is deleted or created by two, and
  none makes a directory in one that another removes, since the program's result then depends on their
  order.  Such a batch has the same effect in any order (`CommitOrder.OrderDoesNotMatter`).  The table
  of changes allows one change per lookup hash in a connection
  (`goose/migrations/1718188301_change_idx.sql:8`), but that of a copy, move or rename is its source's,
  so a batch that also changes the destination passes the index: `Independent` is what excludes it.
- Every change is checked when it is applied, and a batch with a change that fails is refused
  (`Accepted`).  Only the check for an empty directory sees rows deleted by the same batch, so the
  changes are taken in an order; `CommitOrder.AcceptedInEveryOrderExactly` says when it does not matter.
  A refused commit has already promoted the one before, and that stays.
- A deletion keeps the type its row had when it was asked for, and nothing is checked for one recorded
  for a file: by the time of the commit its row may be gone, or be that of a directory with rows below.
- Runs consist of any such batches, accepted or refused, with any versions and any recorded connection
  sizes.  A batch may remove a row and leave others below it, because it creates them there or because
  a deletion was recorded for what was a file then: `PromotionLosesExactly` says what the next
  promotion loses.  `Grounded`, which can be checked before a commit, says that a batch does not, and
  `GroundedExactly` by which changes it would.  It is a condition of just those results that fail
  without it.
- `ConnectionSize` is what the changes weigh against the rows the commit finds.  What the connection
  has recorded is a parameter of the commit, as the rows may change after a change is recorded;
  `CommitSizes.RecordedIsWeight` says when it still is the same.
- Where a property needs a condition the code does not check, the condition is proved to be exact:
  `EndEqualToCountVerifiesExactly`, `PromotionLosesExactly`, `CommitIsTreeExactly`,
  `GroundedExactly`, `RestartMovesSameExactly`, `RestartChangesNothingExactly`,
  `RollbackRestoresExactly`, `RollbackAfterRefusalExactly`, `CommitSizeExactly`, `PromotionSizeExactly`,
  `IncrementalIsConsistentExactly`, `NotPositiveSearchEndsExactly`, `LockReadStaleExactly`,
  `WriteAfterSaveStaleExactly`.
- Where the code does less than its neighbours rely on: the clamp of a range's end compares with `>`
  and lets the leaf count itself through; a commit may fill a directory that it removes, and the next
  one drops what it filled in (`FillingRemovedDirectoryLosesFile`), moving its file only while the
  collector's cache is there (`RestartMovesSameExactly`); a deletion recorded for a file removes the
  directory that is there by now, with all that is below it (`StaleDeleteLosesRows`); a refused commit
  has thrown away what a rollback would revive (`RollbackAfterRefusalExactly`); `GetByIdAndLock` forgets the updates pending
  in its transaction (`LockReadAfterUpdateLeavesStaleEntry`); versions of commits are not checked to
  increase, on which rollback relies; an overwrite by an empty file does not give back
  the old size.

## Model

| member | source | states |
|---|---|---|
| Bytes.CeilLog2Exact | code/go/0chain.net/blobbercore/filestore/tree_validation.go:61-63 | the integer that stands for the ceiling of the logarithm is that ceiling: n lies above the power of two before it and not above its own |
| ValidationTree.GetNodesSize | code/go/0chain.net/blobbercore/filestore/tree_validation.go:43-55 | the size is 32 bytes for every node of every level but the root's, and 0 for an empty file |
| ValidationTree.StoredLength | code/go/0chain.net/blobbercore/filestore/tree_validation.go:43-55 | what the tree writes has exactly the length getNodesSize computes, for every leaf count |
| ValidationTree.CalculateRootAndStoreNodes | code/go/0chain.net/blobbercore/filestore/tree_validation.go:230-282 | returns the root of the leaves, pairs hashed together and a lone last node by itself, and writes every level below it in order; no copy into the buffer is cut short |
| ValidationTree.HashPairs | code/go/0chain.net/blobbercore/filestore/tree_validation.go:246-264 | the pairs of a level go to the buffer where the previous level ended and their hashes are the level above |
| ValidationTree.HashLone | code/go/0chain.net/blobbercore/filestore/tree_validation.go:266-270 | a lone last node is written and hashed by itself |
| ValidationNodes.RootIsTopNode | code/go/0chain.net/blobbercore/filestore/tree_validation.go:230-282 | the root is the one node of the level that has no more, each node the hash of its two children side by side, or of the only one |
| ValidationNodes.NodeIsStored | code/go/0chain.net/blobbercore/filestore/tree_validation.go:246-282 | every other node lies in the stored bytes at 32 times the number of nodes before it, level by level from the leaves |
| ValidationProof.GetNodeIndexes | code/go/0chain.net/blobbercore/filestore/tree_validation.go:369-398 | the indexes and sides of every level, stopping when the range is a whole level or the root is reached |
| ValidationProof.PickNodes | code/go/0chain.net/blobbercore/filestore/tree_validation.go:379-389 | the left neighbour of an odd start and the right neighbour of an even end that is not last, each with its side |
| ValidationProof.GetFileOffsetsAndNodeIndexes | code/go/0chain.net/blobbercore/filestore/tree_validation.go:347-363 | the byte offset of every picked node: its index and all nodes of lower levels before it, times 32 |
| ValidationProof.ReadNodes | code/go/0chain.net/blobbercore/filestore/tree_validation.go:329-343 | groups the 32-byte slices at the offsets by level, and cannot where a slice lies beyond the data |
| ValidationProof.GetMerkleProofOfMultipleIndexes | code/go/0chain.net/blobbercore/filestore/tree_validation.go:296-344 | a negative or reversed range is an error; an end beyond the leaf count is clamped to the last leaf (an end equal to it is not); otherwise the planned nodes are returned |
| ValidationProof.ExtendFillsRange | code/go/0chain.net/blobbercore/filestore/tree_validation.go:369-398 | with its picked neighbours a range of a level starts even and ends odd or at the last node |
| ValidationProof.NextOfRange | code/go/0chain.net/blobbercore/filestore/tree_validation.go:246-270 | hashing such a range gives the matching range of the level above |
| ValidationProof.RangeProofVerifies | code/go/0chain.net/blobbercore/filestore/tree_validation.go:230-398 | main: for every leaf count and every range of leaves, the nodes read at the computed offsets from the bytes the writer stored fold with those leaves to the stored root |
| ValidationProof.AnyOtherEndVerifies | code/go/0chain.net/blobbercore/filestore/tree_validation.go:304-344 | so does every request whose end is not the leaf count itself: with the leaves up to its end, or to the last one |
| ValidationClamp.EndEqualToCountPanicsExactly | code/go/0chain.net/blobbercore/filestore/tree_validation.go:304-343 | main: with the end the clamp lets through, a slice lies beyond the stored nodes exactly when the leaf count is a power of two and at least two, or the start equals it too |
| ValidationClamp.EndEqualToCountVerifiesExactly | code/go/0chain.net/blobbercore/filestore/tree_validation.go:304-398 | main: and without a collision the answer verifies with the leaves from the start on exactly when the count is odd and at least three, or the hash of the one leaf is the leaf |
| ValidationBinding.RootBindsLeaves | code/go/0chain.net/blobbercore/filestore/tree_validation.go:230-282 | main: without a collision among the strings hashed, equal roots over equally many leaves force equal leaves |
| ValidationBinding.VerifiedRangeIsGenuine | code/go/0chain.net/blobbercore/filestore/tree_validation.go:296-398 | main: without such a collision, any proof of the planned shape that folds to the root proves the true leaves of the range |
| FixedMerkleTree.BlobberSizes | code/go/0chain.net/blobbercore/filestore/tree_validation.go:30-35 | 1024 leaves are 2^10 and the buffer size is 32 * (2^11 - 2) |
| FixedMerkleTree.StoredCountPow2 | code/go/0chain.net/blobbercore/filestore/tree_validation.go:33 | 2^d leaves have 2^(d+1) - 2 stored nodes |
| FixedMerkleTree.CalculateRootAndStoreNodes | code/go/0chain.net/blobbercore/filestore/tree_validation.go:67-107 | the fixed tree's root and levels, filling its buffer exactly |
| FixedMerkleTree.GetMerkleProof | code/go/0chain.net/blobbercore/filestore/tree_validation.go:144-173 | data of the wrong size is an error; otherwise d slices, all inside the data |
| FixedMerkleTree.PathFits | code/go/0chain.net/blobbercore/filestore/tree_validation.go:155-171 | every slice of a leaf's path lies inside a buffer of the right size |
| FixedMerkleTree.SlicesAreSiblings | code/go/0chain.net/blobbercore/filestore/tree_validation.go:144-173 | the slices are the sibling of each ancestor of the leaf, level by level |
| FixedMerkleTree.LeafProofVerifies | code/go/0chain.net/blobbercore/filestore/tree_validation.go:67-173 | main: for every leaf, the slices of what the writer stored fold with it to the stored root |
| FixedMerkleTree.VerifiedLeafIsGenuine | code/go/0chain.net/blobbercore/filestore/tree_validation.go:67-173 | main: without a collision, a path that folds to the root proves the true leaf and is the true path |
| LeafContent.GetLeafContent | code/go/0chain.net/blobbercore/filestore/tree_validation.go:178-215 | main: the concatenation over 64 KB blocks of each block's idx-th 64-byte slice, without slicing out of bounds: byte j of block k's slice is there exactly when the file has it, and is the file's byte at 65536k + 64idx + j |
| LeafContent.CutSlice | code/go/0chain.net/blobbercore/filestore/tree_validation.go:202-208 | the offsets are each cut to the end of the block, and stay as they were while blocks are whole |
| LeafContent.CopyBlocks | code/go/0chain.net/blobbercore/filestore/tree_validation.go:195-212 | one buffer of blocks adds exactly its column and stays within the capacity |
| LeafContent.ColumnLength | code/go/0chain.net/blobbercore/filestore/tree_validation.go:178-215 | 64 bytes for each whole block, and what the last block has of the slice |
| LeafContent.ContentFillsLevels | code/go/0chain.net/blobbercore/filestore/tree_validation.go:126-141 | main: the content is longer than (levels - 1) * 64 bytes and at most levels * 64 |
| SeqQueue.HeapTopIsLeast | code/go/0chain.net/blobbercore/seqpriorityqueue/seqpriorityqueue.go:14-36 | the head of the heap has the least offset |
| SeqQueue.HeapPush | code/go/0chain.net/blobbercore/seqpriorityqueue/seqpriorityqueue.go:16-30 | heap.Push keeps the heap and adds one item |
| SeqQueue.HeapPop | code/go/0chain.net/blobbercore/seqpriorityqueue/seqpriorityqueue.go:16-36 | heap.Pop returns the head, keeps the heap and removes one item |
| SeqQueue.ChainPush | code/go/0chain.net/blobbercore/seqpriorityqueue/seqpriorityqueue.go:97-103 | a chunk at the end of a chain of consecutive queued chunks lengthens the chain |
| SeqQueue.SeqPriorityQueue.constructor | code/go/0chain.net/blobbercore/seqpriorityqueue/seqpriorityqueue.go:49-59 | an empty queue expecting offset 0 |
| SeqQueue.SeqPriorityQueue.Push | code/go/0chain.net/blobbercore/seqpriorityqueue/seqpriorityqueue.go:61-70 | a chunk before next is dropped, any other is queued; the consumer is signalled exactly for the chunk at next |
| SeqQueue.SeqPriorityQueue.Done | code/go/0chain.net/blobbercore/seqpriorityqueue/seqpriorityqueue.go:72-79 | the last chunk is queued whatever its offset, and the size fixed |
| SeqQueue.SeqPriorityQueue.Popup | code/go/0chain.net/blobbercore/seqpriorityqueue/seqpriorityqueue.go:81-108 | waits exactly when not done and no chunk is at next; otherwise drains to where the queued chunks reach and returns that range, or the rest of the file once done |
| SeqQueue.PushedAtNextIsPopped | code/go/0chain.net/blobbercore/seqpriorityqueue/seqpriorityqueue.go:61-108 | the chunk at next is signalled, and the following Popup does not wait, returns at least its bytes, and keeps what lies beyond |
| SeqQueue.SeqPriorityQueue.Drain | code/go/0chain.net/blobbercore/seqpriorityqueue/seqpriorityqueue.go:97-103 | what is popped is a chain of consecutive chunks, or chunks already covered; what stays starts later |
| UploadHashing.PopupIsAStep | code/go/0chain.net/blobbercore/seqpriorityqueue/seqpriorityqueue.go:81-108 | whatever the queue's Popup does is a step of the consumer in the state machine, and no range it returns is negative |
| UploadHashing.PopToEndFinishes | code/go/0chain.net/blobbercore/filestore/tree_validation.go:448-476 | a popped range that reaches the end of the file, or is final, is the last one read |
| UploadHashing.ReadRange | code/go/0chain.net/blobbercore/filestore/tree_validation.go:469-492 | reading by buffers feeds the hasher exactly the bytes of the range |
| UploadHashing.StepKeepsInv | code/go/0chain.net/blobbercore/filestore/tree_validation.go:435-498 | every step of writers, Push, Done and the consumer keeps the invariant |
| UploadHashing.HashedInOrder | code/go/0chain.net/blobbercore/filestore/tree_validation.go:435-498 | main: in every interleaving the bytes hashed are always a prefix of the file, and when the consumer ends they are the file |
| UploadHashing.NeverLeftAsleep | code/go/0chain.net/blobbercore/seqpriorityqueue/seqpriorityqueue.go:61-85 | main: the consumer is not asleep while the chunk at next is queued or Done was called |
| UploadHashing.PopLeavesOnlyLater | code/go/0chain.net/blobbercore/seqpriorityqueue/seqpriorityqueue.go:61-108 | before Done no queued chunk lies before next, and a Popup leaves only chunks beyond the new next |
| UploadHashing.ConsumerCanStep | code/go/0chain.net/blobbercore/filestore/tree_validation.go:448-497 | after Done the consumer can always take a step until it has finished |
| UploadHashing.ConsumerStepsDown | code/go/0chain.net/blobbercore/filestore/tree_validation.go:448-497 | and every such step brings it nearer its end |
| CommitRows.RowsOkAfter | code/go/0chain.net/blobbercore/allocation/allocationchange.go:257-287 | any batch leaves every row with its parent's row, live or soft-deleted, by path and by id |
| CommitRows.PurgeLeavesTree | code/go/0chain.net/blobbercore/allocation/allocationchange.go:416-419 | deleting the soft-deleted rows for good leaves every row in a live directory, and takes no live row along exactly when that was so before |
| CommitRows.GoneExactly | code/go/0chain.net/blobbercore/allocation/allocationchange.go:416-419 | purging the soft-deleted rows takes along, by the foreign key, exactly the live rows, old or new, below a row the batch removed |
| CommitRows.GroundedExactly | code/go/0chain.net/blobbercore/reference/object.go:14-45 | an accepted batch leaves no row below one it removes exactly when it creates none there and no row it keeps is below a directory removed by a deletion recorded for a file: the checks for emptiness see to all others |
| CommitRows.RolledBackIsTree | code/go/0chain.net/blobbercore/allocation/rollback.go:16-26 | after a rollback, which also takes along what is below the rows it deletes, every row is in a live directory |
| CommitRows.RolledBackExactly | code/go/0chain.net/blobbercore/allocation/rollback.go:16-26 | the rows of before a batch come back exactly when no row it kept carries its version |
| CommitOrder.OrderDoesNotMatter | code/go/0chain.net/blobbercore/allocation/allocationchange.go:257-287 | a batch in another order is a batch with the same effect on the rows and the collector's cache |
| CommitOrder.AcceptedInEveryOrderExactly | code/go/0chain.net/blobbercore/allocation/allocationchange.go:257-287 | it is accepted in every order exactly when each directory it removes or copies was empty before the batch |
| CommitOrder.OrderCanMatter | code/go/0chain.net/blobbercore/reference/object.go:14-45 | a directory can be deleted after the one row in it was, and not before; a row moved away by the same batch still counts, and a copy sees no deletion |
| CommitOutcome.CommitDoesItsChanges | code/go/0chain.net/blobbercore/allocation/allocationchange.go:257-287 | main: an upload's row is live with its data and size, a deleted row is not, a copy is there beside its source, a renamed or moved row is at its destination only, with kind, data and size; directories missing on the way are made, every other row stays, and no other is new |
| CommitOutcome.CommitRefusedExactly | code/go/0chain.net/blobbercore/handler/object_operation_handler.go:637-667 | a commit is refused for its size exactly when it would exceed what the blobber offers, and otherwise, with one change, exactly for a file on the way, an existing destination, a missing source, a directory with rows in it, an upload over a directory or without leave to update, or a rename out of its directory |
| CommitOutcome.CommitRecordsAll | code/go/0chain.net/blobbercore/handler/object_operation_handler.go:679-690 | both used sizes grow by the connection's size, their old values are kept for a rollback, and the version is the commit's |
| CommitOutcome.RollbackSetsBack | code/go/0chain.net/blobbercore/handler/object_operation_handler.go:1348-1501 | a rollback sets the version to the marker's, one less than before, and both sizes back, empties the precommit directory, and cannot be repeated |
| CommitDirs.CommittedRowsSuitMkdir | code/go/0chain.net/blobbercore/reference/ref.go:157-274 | in every state of every run the rows a commit finds after its promotion are the tree that the Mkdir results ask for |
| CommitDirs.MkdirMakesTheBatchesDirectories | code/go/0chain.net/blobbercore/reference/ref.go:157-274 | main: however the Mkdir calls of a batch interleave, they make exactly the directories the batch is to make |
| CommitSafety.PromotionIgnoresRestart | code/go/0chain.net/blobbercore/allocation/allocationchange.go:326-393 | promotion keeps the same rows from the collector's cache as from the rows, with every live file in the final directory either way; a restart before it changes nothing at all exactly when the same files move, as they do when every row is in a live directory, and what only the cache names as deleted is replaced or not in the final directory |
| CommitSafety.RestartMovesSameExactly | code/go/0chain.net/blobbercore/allocation/allocationchange.go:326-351 | main: after any batch, promotion moves the same files with the collector's cache as after a restart exactly when the batch put no file below a row it removed, and deletes the same files exactly when every deletion recorded for a file still finds one |
| CommitSafety.RestartChangesNothingExactly | code/go/0chain.net/blobbercore/allocation/allocationchange.go:326-393 | after any batch a restart changes nothing at all exactly when that is so of the files moved, and what was deleted without a file is replaced or not in the final directory |
| CommitSafety.PromotionSettles | code/go/0chain.net/blobbercore/allocation/allocationchange.go:318-421 | promotion leaves no soft-deleted row, every row in a live directory and every live file in the final directory; it keeps all live rows exactly when they were in live directories |
| CommitSafety.PromotionLosesExactly | code/go/0chain.net/blobbercore/allocation/allocationchange.go:375-421 | main: after any batch, the promotion loses exactly the live rows, old or new, below a row it removed; none exactly when no row was to be live there |
| CommitSafety.CommitKeepsInv | code/go/0chain.net/blobbercore/handler/object_operation_handler.go:572-761 | every successful commit keeps the invariant of rows, directories, cache and allocation, whatever its batch, version and size |
| CommitSafety.CommitIsTreeExactly | code/go/0chain.net/blobbercore/allocation/allocationchange.go:257-287 | after a commit every row is in a live directory exactly when none that is to be live, old or new, is below one its batch removed, whatever came before |
| CommitSafety.RollbackKeepsInv | code/go/0chain.net/blobbercore/handler/object_operation_handler.go:1348-1501 | and so does every successful rollback, after which every row is in a live directory |
| CommitSafety.RunKeepsInv | code/go/0chain.net/blobbercore/handler/object_operation_handler.go:572-761 | the invariant holds in every state of every run of commits, accepted or refused, rollbacks and restarts, whatever their batches |
| CommitSafety.EveryFileResolves | code/go/0chain.net/blobbercore/filestore/storage.go:580-617 | main: in every reachable state, whatever the batches and versions, each live file is found where the reader looks, with the bytes committed for it |
| CommitSafety.EveryRowIsInALiveDirectory | code/go/0chain.net/blobbercore/allocation/allocationchange.go:257-287 | main: while no accepted batch leaves a row below one it removes, each live row but the root's is in a live directory, by path and by id |
| CommitSafety.RollbackRestoresExactly | code/go/0chain.net/blobbercore/allocation/rollback.go:11-34 | after a commit of any batch the rows it found come back exactly when no kept row already carried the new version, which the code does not check |
| CommitSafety.RollbackUndoesCommit | code/go/0chain.net/blobbercore/allocation/rollback.go:11-34 | main: a rollback after a commit of any batch restores both sizes and goes back one version, to the one before for a commit that went one up, and, under that condition, restores the rows and what every file resolves to; only the rows that the promotion of an earlier batch drops are missing |
| CommitSafety.RollbackAfterRefusalExactly | code/go/0chain.net/blobbercore/allocation/allocationchange.go:318-373 | main: when the next commit was refused for one of its changes, a rollback still restores the rows exactly when the batch had removed none and no kept row carried its version |
| CommitSafety.MovingFirstSettlesExactly | code/go/0chain.net/blobbercore/allocation/allocationchange.go:337-371 | moving before deleting would do exactly when no file that stays is among those deleted: the order matters just there |
| CommitSizes.DeltaOfAll | code/go/0chain.net/blobbercore/allocation/connection.go:147-228 | a connection's size is what its new files add less what its deleted files free, up to overwrites by an empty file |
| CommitSizes.RecordedIsWeight | code/go/0chain.net/blobbercore/allocation/connection.go:205-222 | what a connection recorded, each change against the rows of its time, is what the changes weigh at the commit when none of the rows looked up has changed its size, come or gone since |
| CommitSizes.LiveSizeAfter | code/go/0chain.net/blobbercore/allocation/connection.go:147-228 | the live size after a batch is the live size before and the connection's size, less what empty overwrites free |
| CommitAccounting.CommitSizeExactly | code/go/0chain.net/blobbercore/allocation/connection.go:213 | after a commit BlobberSizeUsed is the size of the live files exactly when the recorded size is what the changes weigh, less the files that empty uploads replace |
| CommitAccounting.EmptyOverwritesMissExactly | code/go/0chain.net/blobbercore/allocation/connection.go:213 | with what the changes weigh that is exactly when no change overwrote a file with an empty one |
| CommitAccounting.PromotionSizeExactly | code/go/0chain.net/blobbercore/allocation/allocationchange.go:416-419 | promotion keeps that size exactly when all files below the rows the batch removed are empty |
| CommitAccounting.FillingRemovedDirectoryLosesFile | code/go/0chain.net/blobbercore/allocation/allocationchange.go:416-419 | deleting an empty directory and uploading into it in one commit: the next promotion drops the new file's row |
| CommitAccounting.StaleDeleteLosesRows | code/go/0chain.net/blobbercore/reference/object.go:14-45 | a deletion recorded for a file whose path has become a directory is accepted and creates nothing, and the next promotion drops every row below it |
| CommitAccounting.IncreasingVersionsAreNew | code/go/0chain.net/blobbercore/handler/object_operation_handler.go:681-690 | when the versions of commits increase, no commit's version is that of a row already there |
| CommitAccounting.RecordedSizeIsExact | code/go/0chain.net/blobbercore/handler/object_operation_handler.go:634-690 | main: in every run whose commits record what their changes weigh, carry new versions and leave no file with content below what they remove, and in which nothing is soft-deleted when a commit is refused for a change, BlobberSizeUsed is the sum of the live file sizes and within BlobberSize |
| CommitStore.ReachableHasSources | code/go/0chain.net/blobbercore/filestore/storage.go:327-396 | in every reachable state the files a batch copies are in the final directory after promotion |
| CommitStore.AllocationStore.MoveFile | code/go/0chain.net/blobbercore/filestore/storage.go:151-177 | a precommit file replaces the final one; a missing one changes nothing |
| CommitStore.AllocationStore.CopyFile | code/go/0chain.net/blobbercore/filestore/storage.go:327-396 | a copy from the final directory to the precommit one; copying onto itself does nothing |
| CommitStore.AllocationStore.DeleteFromFileStore | code/go/0chain.net/blobbercore/allocation/allocationchange.go:375-421 | the deleted files go from the final directory, their rows for good with those the database deletes along; from a reachable state it leaves every row in a live directory, and all of them exactly when they were |
| CommitStore.AllocationStore.MoveToFilestore | code/go/0chain.net/blobbercore/allocation/allocationchange.go:318-373 | the object's promotion is the specification's: deletes first, then moves |
| CommitStore.AllocationStore.ApplyChanges | code/go/0chain.net/blobbercore/allocation/allocationchange.go:257-287 | applying the changes one after the other gives their combined effect on the rows and the collector's cache |
| CommitStore.AllocationStore.CommitToFileStore | code/go/0chain.net/blobbercore/allocation/allocationchange.go:289-303 | every change's file is put in the precommit directory, failing exactly when a source is missing |
| CommitStore.AllocationStore.CommitWrite | code/go/0chain.net/blobbercore/handler/object_operation_handler.go:572-761 | keeps the invariant, whatever the batch; refused for the connection's size, changing nothing, or for one of its changes, after which only the promotion of the last commit stays; otherwise no source is missing, every change is done to the rows, and version and sizes are recorded |
| CommitStore.AllocationStore.RollbackCommit | code/go/0chain.net/blobbercore/handler/object_operation_handler.go:1348-1501 | keeps the invariant; the checks in order, each failing without a change; otherwise the version is the marker's, the sizes are set back, precommit is empty, and the rows are the specification's |
| CommitStore.AllocationStore.Download | code/go/0chain.net/blobbercore/filestore/storage.go:580-617 | a live file is served the content it was committed with, from the precommit or the final directory |
| ObjectPath.ChooseChild | code/go/0chain.net/blobbercore/reference/objectpath.go:60-72 | the child in which the block lies, and the block's number in it |
| ObjectPath.GetObjectPath | code/go/0chain.net/blobbercore/reference/objectpath.go:22-92 | main: fails exactly beyond the last block, and finds the file and block whose global number was asked for; a number that is not positive gives the first file |
| ObjectPath.NotPositiveSearchEndsExactly | code/go/0chain.net/blobbercore/reference/objectpath.go:54-77 | for such a number the search ends exactly when first children lead to a file, and loops in an empty directory otherwise |
| ObjectPath.BlockNumbersAreUnique | code/go/0chain.net/blobbercore/reference/objectpath.go:22-92 | a global number belongs to one block of one file |
| ObjectPath.BlocksOfAllocation | code/go/0chain.net/blobbercore/reference/objectpath.go:22-92 | main: the numbers from 1 to the root's NumBlocks are exactly those of the blocks of its files |
| ObjectPath.BlocksOfFiles | code/go/0chain.net/blobbercore/reference/objectpath.go:22-92 | a consistent directory's NumBlocks is the sum over the files below it |
| RefTree.ConsistentExactly | code/go/0chain.net/blobbercore/reference/ref.go:527-586 | recomputing everything changes nothing exactly when every node has the hash and sums of its fields and children |
| RefTree.IncrementalIsConsistentExactly | code/go/0chain.net/blobbercore/reference/ref.go:527-586 | main: the incremental computation leaves every node so exactly when the subtrees it leaves alone were |
| RefTree.IncrementalIsFullExactly | code/go/0chain.net/blobbercore/reference/ref.go:527-586 | and exactly then it equals a full one |
| RefTree.TotalsAreSumsOverFiles | code/go/0chain.net/blobbercore/reference/ref.go:540-579 | main: after it, the root's blocks and sizes are the sums over all files below, and every file has just the blocks that hold it |
| RefTree.RecomputedHash | code/go/0chain.net/blobbercore/reference/ref.go:527-579 | a file's hash is that of its path, sizes and actual hash, a directory's that of its path and its children's new hashes in order |
| RefNodes.Ref.CalculateFileHash | code/go/0chain.net/blobbercore/reference/ref.go:527-538 | a file's hash from its own fields, and just as many blocks as chunks are needed to hold it |
| RefNodes.Ref.CalculateDirHash | code/go/0chain.net/blobbercore/reference/ref.go:540-579 | updating the nodes in place makes of the tree what the incremental function makes of its value |
| RefNodes.Ref.CalculateHash | code/go/0chain.net/blobbercore/reference/ref.go:581-586 | the same for any node: its value is then the incremental function's |
| RefNodes.Ref.RefreshChildren | code/go/0chain.net/blobbercore/reference/ref.go:558-570 | the loop over the children leaves each with its new value and adds them up |
| RefNodes.Ref.AddChild | code/go/0chain.net/blobbercore/reference/ref.go:588-617 | replaces the child of the same name met before a greater path, or inserts before the first greater path, or appends |
| RefNodes.InsertedIsSorted | code/go/0chain.net/blobbercore/reference/ref.go:588-617 | children stay strictly sorted by path, and only the child's path changes hands |
| ObjectTree.GetObjectTree | code/go/0chain.net/blobbercore/reference/referencepath.go:203-235 | main: fails exactly when a row other than the first has no parent; otherwise every row is once among the children of its ParentPath, all sorted |
| ObjectTree.LinkRow | code/go/0chain.net/blobbercore/reference/referencepath.go:227-233 | one row joins its parent's children, or has no parent among the rows |
| ObjectTree.SortedRowsPutPrefixesFirst | code/go/0chain.net/blobbercore/reference/referencepath.go:213 | ordering rows by path puts a directory before everything in it |
| Mkdir.GetAllParentPaths | code/go/0chain.net/core/common/utils.go:50-71 | the paths of all ancestors from the root down, and the root itself for the root |
| Mkdir.TextOfEntry | code/go/0chain.net/core/common/utils.go:50-71 | a path is written as that of its directory, a slash and its name |
| Mkdir.ExistingIsPrefix | code/go/0chain.net/blobbercore/reference/ref.go:206-230 | the existing ones among the parents are the first few of them |
| Mkdir.CreatesMissingRow | code/go/0chain.net/blobbercore/reference/ref.go:235-265 | a call creates only an absent path, in its parent directory, at its level |
| Mkdir.StepKeepsInv | code/go/0chain.net/blobbercore/reference/ref.go:157-274 | every step of every call keeps the invariant |
| Mkdir.MkdirsShareOneTree | code/go/0chain.net/blobbercore/reference/ref.go:157-274 | main: in every interleaving rows stay in directories that have rows, new rows were missing and have the right parent and level, and a finished call failed exactly when a file is on its way |
| Mkdir.CreatesExactlyTheMissing | code/go/0chain.net/blobbercore/reference/ref.go:157-274 | main: when all calls are done, exactly the missing directories on the way to what could be made were created |
| Mkdir.SomeCallCanMove | code/go/0chain.net/blobbercore/reference/dbCollector.go:126-132 | an unfinished call means some call can move: no deadlock on the transaction lock |
| Mkdir.EveryStepIsProgress | code/go/0chain.net/blobbercore/reference/ref.go:157-274 | every step brings its call nearer its end |
| Mkdir.Collector.ParentRefs | code/go/0chain.net/blobbercore/reference/ref.go:206-210 | the query for the parents returns those that have rows, in path order |
| Mkdir.Collector.MakeMissing | code/go/0chain.net/blobbercore/reference/ref.go:194-273 | the call under the lock: fails, creating nothing, exactly when a file is on the way |
| Mkdir.Collector.Mkdir | code/go/0chain.net/blobbercore/reference/ref.go:157-274 | one whole call: the same with the cache and the committed rows looked up first; nothing but missing directories is added, and the answer is in the cache |
| LockPool.StepKeepsInv | code/go/0chain.net/core/lock/lock.go:27-86 | every get, lock, unlock and clean keeps the invariant |
| LockPool.ReadersAndWritersExclude | code/go/0chain.net/core/lock/lock.go:27-86 | main: clients at one key share the pool's mutex object, and a writer excludes every other holder |
| LockPool.EntryCountsUsers | code/go/0chain.net/core/lock/lock.go:52-86 | at every moment usedby of every entry is the number of clients using its key |
| LockPool.LockKeysDiffer | code/go/0chain.net/core/lock/lock.go:52-57 | the pool's keys for different tables, or different keys of a table, differ |
| LockPool.KeysDoNotInterfere | code/go/0chain.net/core/lock/lock.go:52-70 | different keys have different mutex objects |
| LockPool.CleanDropsExactlyTheUnused | code/go/0chain.net/core/lock/lock.go:76-86 | the cleaner drops an entry exactly when no client is using its key |
| LockPool.WaitsOnlyForHolders | code/go/0chain.net/core/lock/lock.go:27-49 | a client waits for its lock only while another holds the same key |
| LockPool.PoolLockIsReleased | code/go/0chain.net/core/lock/lock.go:35-49 | the client inside the pool's lock can leave it |
| LockPool.Pool.GetMutex | code/go/0chain.net/core/lock/lock.go:52-70 | the objects and entries after the call are the specification's: a user more, or a new entry with one |
| LockPool.Pool.Unlock | code/go/0chain.net/core/lock/lock.go:35-49 | one user and one hold fewer, on that object only |
| LockPool.Pool.CleanUnusedMutexs | code/go/0chain.net/core/lock/lock.go:76-86 | exactly the entries with a user stay, and no object changes |
| AllocationCache.StepKeepsInv | code/go/0chain.net/blobbercore/allocation/repository.go:51-306 | every careful use of the repository, eviction, commit and abort keeps the invariant |
| AllocationCache.GlobalCacheIsCommitted | code/go/0chain.net/blobbercore/allocation/repository.go:51-85 | main: in every careful history a present global entry is the committed row, and a first read in a transaction gives that row |
| AllocationCache.EvictedIsReadAgain | code/go/0chain.net/blobbercore/allocation/repository.go:51-85 | an evicted entry is gone, and the next transaction to ask for it brings the row back |
| AllocationCache.CreatedIsThere | code/go/0chain.net/blobbercore/allocation/repository.go:308-326 | a created allocation is what its transaction then reads, and a commit makes its value the row and changes no other |
| AllocationCache.ReplayThenAssign | code/go/0chain.net/blobbercore/allocation/repository.go:283-306 | an object that pending updates will read may be updated again: whatever they then read, the replayed value differs at most in the new fields |
| AllocationCache.LockReadStaleExactly | code/go/0chain.net/blobbercore/allocation/repository.go:87-110 | a lock-read drops pending updates: after the commit the global entry is right exactly when they changed nothing |
| AllocationCache.WriteAfterSaveStaleExactly | code/go/0chain.net/blobbercore/allocation/repository.go:283-306 | writing to a saved object without the repository leaves the global entry right exactly when the write changed nothing |
| AllocationCache.LockReadAfterUpdateLeavesStaleEntry | code/go/0chain.net/blobbercore/allocation/repository.go:87-110 | a concrete history that leaves a stale global entry |
| AllocationCache.StepKeepsHeld | code/go/0chain.net/blobbercore/allocation/repository.go:51-306 | the session's objects keep holding the transaction's rows |
| AllocationCache.Repository.GetById | code/go/0chain.net/blobbercore/allocation/repository.go:51-85 | fills the caches on the way; the object returned, if the row exists, holds the transaction's row |
| AllocationCache.Repository.GetByIdAndLock | code/go/0chain.net/blobbercore/allocation/repository.go:87-110 | a fresh object with the row; keeps the caches coherent when no update was pending |
| AllocationCache.Repository.UpdateAllocation | code/go/0chain.net/blobbercore/allocation/repository.go:233-251 | the row's fields and the object's are set and no other row changes; keeps the global cache committed and the session current for an object that holds the row, whether the closure reads the object early or late |
| AllocationCache.Repository.UpdateAllocationRedeem | code/go/0chain.net/blobbercore/allocation/repository.go:199-231 | sets the last redeemed marker, the redeem flag to no, and the last redeemed sequence, of that row alone; keeps the rest so, too |
| AllocationCache.Repository.Save | code/go/0chain.net/blobbercore/allocation/repository.go:283-306 | the row is the object's value and no other row changes; keeps the global cache committed and the session current, from any object |
| AllocationCache.Repository.Create | code/go/0chain.net/blobbercore/allocation/repository.go:308-326 | refused, with nothing changed, when the row exists; otherwise the row is the object's value, the session's entry is that object, and no other row changes |
| AllocationCache.Repository.RunUpdates | code/go/0chain.net/blobbercore/allocation/repository.go:272-274 | an entry's updates run in order on the cached value |
| AllocationCache.Repository.ReplayAll | code/go/0chain.net/blobbercore/allocation/repository.go:253-281 | all entries' updates reach the global entries that are present, in whatever order |
| AllocationCache.Repository.Commit | code/go/0chain.net/blobbercore/datastore/store.go:30-38 | the transaction's rows become the committed ones, then the replay: the global cache holds the new rows |

## Left out

- Trees of an empty file: both writers are modelled for a positive size.  `calculateDepth` is always
  used, since no caller sets a depth of its own.
- The fixed tree's branch for a level of odd size: no level of 2^d leaves is odd, except the root's.
- `LeafContent.GetLeafContent`: reads that return less than the buffer before the end of the file.
- Upload hashing: cancellation by the context and read errors, which end the consumer early; a chunk
  whose bytes are not on disk when it is pushed; the md5 and tree hashes fed with the stream.
- One data size is given both to the hasher and to `Done`.
- `CommitStore.AllocationStore.CommitWrite`: a file store failure after promotion leaves the object
  half changed, and nothing is claimed of that state, as the deletion of old files runs in a
  transaction of its own and is not undone.  Process crashes within a commit are left out with it;
  a restart between two commits is a step of every run.
- Goroutines of promotion are loops over sets: they touch different files.
- `CommitOrder.OrderDoesNotMatter`: batches in which one change makes a directory in one that another
  removes are not batches of the model: in the program the directory is made anew, or the commit
  fails, depending on which runs first.
- Thumbnails, which follow their files; custom metadata; signatures and version marker records, of
  which only the version matters here; repair markers.
- `NewDir` changes, which insert a row without looking at its parent's type, and the update operation whose case is commented out
  (`code/go/0chain.net/blobbercore/allocation/allocationchange.go:233-234`).
- `CommitAccounting.RecordedSizeIsExact`: runs with a commit whose recorded size is not what its
  changes weigh, less empty overwrites (`CommitAccounting.CommitSizeExactly`), whose version a kept row
  carries (`CommitAccounting.IncreasingVersionsAreNew` excludes it for increasing versions), or that
  loses files with content (`CommitAccounting.PromotionSizeExactly`); and with one refused for a change
  while rows are soft-deleted, which a rollback would miss (`CommitSafety.RollbackAfterRefusalExactly`).
- `CommitSafety.EveryRowIsInALiveDirectory`: runs with batches that leave a row below one they remove,
  after which it fails (`CommitSafety.CommitIsTreeExactly`) until the next promotion or rollback.
- `CommitSafety.RollbackUndoesCommit`: asks for a version that no kept row carries, the condition
  `CommitSafety.RollbackRestoresExactly` shows to be exact, and for one other than 0, of which there is
  no rollback.
- `ObjectPath.GetObjectPath`: for a number that is not positive, roots whose first children lead to no
  file, where the search does not end (`ObjectPath.NotPositiveSearchEndsExactly`); trees whose counts
  do not add up.  The listing data collected on the way is left out; a directory read again from the
  database is the child itself.
- `RefNodes.Ref.CalculateHash`: saving the nodes on the way, path levels and lookup hashes; the
  formatted string that is hashed is a record of its parts.
- `ObjectTree.GetObjectTree`: rows are required to come with every path once and before its
  extensions, as ordering by path gives them, and with paths that are their parent's path and name.
- `Mkdir.Collector.Mkdir`: database failures other than a duplicate row; deletions in the same
  transaction, which a batch's independence keeps off the paths created.  A row's id is its path.
- `Mkdir.GetAllParentPaths`: takes a clean absolute path as its list of names; the empty and the
  relative path, which `Mkdir` never passes, are left out.
- `LockPool.ReadersAndWritersExclude`: clients lock once between getting a mutex and unlocking it, the
  same way, as all callers do.  A waiting writer's priority over new readers only delays them and is
  not modelled.
- `AllocationCache.GlobalCacheIsCommitted`: transactions run one after another; `GetByTx`, listings and
  reads that bypass the caches are left out; column values are integers; an `Updates` call, with the
  assignments a handler makes just before it, sets the object's fields too.
- `MapLocker`, disk usage counters, nonces, quotas, read markers, challenges' timing, pagination, HTTP
  and gRPC handlers, configuration and statistics: plumbing, or single-branch claims.
