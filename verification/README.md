# A verified model of the Utreexo bridge

The bridge keeps a Utreexo accumulator as a flat, position-addressed file of forest nodes
beside a map from outpoints to leaf positions. It builds the file in parallel from scanner hints,
updates it block by block through a write-ahead log, and serves inclusion proofs from it. This
project models that core in Dafny and proves what it is for.

| files | what they model |
|---|---|
| `Bits`, `Coordinates` | shifts and masks on 64-bit words; row-major positions against (row, offset) |
| `Forest`, `Planner` | promotion on deletion, the value of a forest over its bottom row, incremental planning of a block |
| `Proofs`, `Walks`, `Detwin` | proof positions in the promoted forest, the two walks, the batched traversal |
| `Entry`, `Ledger`, `Merge`, `Steady`, `Blocks` | journal entries, the state key by key, the k-way merge, applying and undoing, the startup leaf count |
| `History` | undo and redo over every history of appends, rollbacks and prunes |
| `Overlay`, `Pipeline`, `Threads`, `Serving` | the producer running ahead of the persistence worker; every interleaving of the two; the proof of a block through the overlay |
| `Resize` | growing the file online, interrupted anywhere |
| `Wal`, `Codec` | the published journal with crashes and torn markers; the bytes of an entry |
| `ProofStore`, `Recovery`, `Interruption`, `Persist`, `Repair`, `Startup` | proof file, header and proof indexes, persist, rollback and startup |
| `Reopen`, `Lives`, `Lifetime` | from the bytes a crash leaves to a running prover and on to the next persist; a node over its whole life |
| `Build`, `Schedule` | the parallel bootstrap: workers, sleeping, announcing, who puts what |
| `Scanner`, `Hints`, `Sequential` | the hint scanner on one block and on a chain, its hints against proving the same blocks one at a time |

Everything rests on one abstract state: the bottom row of `(hash, spent)` leaves, the leaf count
and the leaf map. `Forest.Value` is the recursive meaning of a node over the bottom row and
`Forest.IsForest` says that a file holds exactly those values. From there on a state is a function
from keys to values, where a key is a coordinate (not a file position, which moves when the file
grows), an outpoint, or the count. An entry touches some keys; redo, undo, overlay, replay, resize
and recovery are statements about one key at a time. The node hash is an uninterpreted constant,
so no collision assumption is made anywhere.

Three things the proofs bring out about the program as it is:

- The waiting loop in `reserve_persistence` (src/prover.rs:981-990) is never entered: a block is
  started with at most 199 blocks pending. Backpressure comes only from `publish_pending`.
- Startup repairs proof index entries one by one (src/prover.rs:624-637). Interrupting it is safe
  exactly when no readable proof followed the first unreadable one, which holds after every
  interrupted persist (`Repair.PersistNothingAfter`). With an unreadable proof in front of a
  readable one, stopping between two index writes lets the next startup cut the repaired proof
  off; `Repair.InteriorDamageExample` gives the bytes, `Repair.RepairInterruptible` the exact
  condition and `Repair.StartAgain` the outcome.
- Equality of the bootstrapped and the sequential forest needs no assumption on outpoints beyond
  the scanner's own checks: it holds for every chain that the scanner accepts, and proving such a
  chain never fails to find an outpoint (`Sequential.BootstrapOrProve`).

## How it is modelled

Objects the program updates in place are classes (`SteadyStateForest`, `ForestOverlay`,
`FlatFileProver`, `FlatForest`, `ProofFile`), its loops are methods with invariants, its
expressions are functions. Concurrency, crashes and torn writes are transition relations over
states (`Wal`, `Resize`, `Build`, `Threads`, `Lifetime`), with an invariant kept by every step and
theorems over every run. Operating-system calls keep only their abstract effect: an unflushed write may be lost, torn
or kept, a hole reads as nothing. Checksums are ideal, so a torn marker slot is simply invalid.
The key-value stores are maps whose single writes are atomic and reach the disk in the order they
are made.

Preconditions that are not the program's own checks: planned blocks spend positions that come from
the leaf map; a rolled-back block can be undone because its added outpoints were not mapped before
it; equal block hashes are equal blocks; an encoded proof has at least one byte; exactly the coinbase
has the null input.

## Model

| member | source | states |
|---|---|---|
| Coordinates.DetectRow | src/parallel_forest.rs:2828-2836 | the descending marker loop finds the row of every position, up to 62 rows |
| Coordinates.PositionFromStart | src/parallel_forest.rs:2963-2969 | each row is stored contiguously from its start position |
| Coordinates.PositionAt | src/parallel_forest.rs:2959-2969 | position and (row, offset) are inverse to each other in the row-major layout |
| Coordinates.ParentAgrees | src/parallel_forest.rs:2819-2821 | the bit-level parent is the node above, for every non-top coordinate and height |
| Coordinates.LeftChildAgrees | src/parallel_forest.rs:2823-2826 | the bit-level left child is the node below on the left; the right child follows it |
| Coordinates.SiblingAgrees | src/parallel_forest.rs:2860-2860 | flipping the lowest bit of a position reaches the sibling |
| Coordinates.RootPositionAgrees | src/parallel_forest.rs:2838-2843 | the masked, shifted root position is the last ready node of its row |
| Coordinates.IsRootAgrees | src/parallel_forest.rs:2845-2848 | the bit-level root test is the coordinate test, both ways |
| Coordinates.TranslateAgrees | src/parallel_forest.rs:2950-2958 | translating between layouts keeps row and offset |
| Coordinates.TranslateCommutes | src/parallel_forest.rs:2004-2010 | translation is injective and commutes with taking the parent, so an entry recorded before a resize applies after it |
| Coordinates.TreeRowsLeast | src/parallel_forest.rs:2811-2817 | `tree_rows` is the least height that holds the leaves |
| Forest.Rebuild | src/parallel_forest.rs:2555-2572 | the array whose every ready node is the recursive value over the bottom row, all else uninitialized |
| Forest.LocalIsGlobal | src/parallel_forest.rs:2555-2572 | ready iff below the shifted leaf count, and every ready parent combining its children, is exactly: the array is the forest of its bottom row |
| Forest.ValueLocal | src/parallel_forest.rs:2555-2572 | a node depends only on the leaves below it |
| Forest.ValueMeans | src/parallel_forest.rs:2555-2572 | a node is spent iff every leaf below it is, with the zero hash above the bottom row; where one child is live it is that child, where both are, the parent hash of left and right |
| Planner.StageDeletions | src/parallel_forest.rs:1749-1899 | deletions stage exactly the marked leaves over the view, duplicates included |
| Planner.PropagateDeletions | src/parallel_forest.rs:1749-1899 | level by level, every staged or untouched node becomes its value over the marked bottom row |
| Planner.StageAddition | src/parallel_forest.rs:1749-1899 | appending one leaf carries combined parents up exactly as far as rows complete |
| Planner.PlanUpdate | src/parallel_forest.rs:1749-1899 | fails iff capacity is exhausted; else the ascending entry starts from the view and its after-states give the forest rebuilt over the marked and extended bottom row |
| Planner.RootsAfter | src/parallel_forest.rs:1906-1942 | one root for each set bit of the leaf count, behind those of the higher bits: the hash of the last node of its row, the zero hash if that is spent; refused iff the base has another leaf count |
| Merge.TakePosition | src/parallel_forest.rs:1125-1160 | popping one position off the heap takes all its heads and finds the last block's delta |
| Merge.MergedForestWrites | src/parallel_forest.rs:1125-1160 | the k-way merge emits every touched position once, strictly ascending, with the last block's state, and nothing else |
| Steady.WindowMeansRedo | src/parallel_forest.rs:1947-1968 | the last delta of a window at a node is what redoing its blocks in order leaves there |
| Steady.ApplyLeafMapDelta | src/parallel_forest.rs:2012-2051 | removing and inserting leaves each outpoint its last insertion, none if only removed, else what it was |
| Steady.SteadyStateForest.ApplyForward | src/parallel_forest.rs:1970-1979 | every cell, outpoint and the count become the redo of the entry, in any file at least as tall; refused otherwise, unchanged |
| Steady.SteadyStateForest.ApplyBackward | src/parallel_forest.rs:1981-1990 | every key becomes the undo of the entry |
| Steady.SteadyStateForest.ApplyForwardBatch | src/parallel_forest.rs:1947-1968 | a merged window equals redoing its blocks one after the other; refused iff a block has another layout |
| Steady.SteadyStateForest.ReplayJournal | src/parallel_forest.rs:2065-2081 | undoes all records newest first, then redoes the forward ones, key for key; skipped after a clean shutdown |
| Steady.SteadyStateForest.EnsureLeafCapacity | src/parallel_forest.rs:1452-1468 | grows to the least sufficient height; no cell, outpoint or count reads differently |
| Blocks.PlannedRedo | src/parallel_forest.rs:1970-1979 | redoing a planned entry gives the rebuilt forest of the next bottom row and the updated leaf map |
| Blocks.PlannedStarts | src/parallel_forest.rs:1679-1700 | a planned entry can be undone iff removed outpoints were mapped where it says and added ones were fresh |
| Blocks.ApplyThenUndo | src/parallel_forest.rs:1970-1990 | apply then undo is the identity on nodes, leaf map and count iff the leaf map agreed with the entry |
| Blocks.RecoverLeafCount | src/parallel_forest.rs:1392-1403 | the binary search returns the length of the ready prefix |
| Blocks.OpenLeafCount | src/parallel_forest.rs:1392-1406 | startup recovers the exact leaf count of any forest, and refuses an empty one |
| History.KeyAppend | src/forest_journal.rs:434-471 | appending keeps every record's before-state equal to what the forward records before it leave |
| History.KeyRollback | src/forest_journal.rs:516-543 | marking the latest forward record back leaves the forward records before it |
| History.KeyPrune | src/forest_journal.rs:549-577 | dropping records before a forward one only moves the base |
| History.PruneKeepsNewest | src/forest_journal.rs:549-577 | pruning keeps exactly the newest so many forward records, or all there are |
| History.KeyReplay | src/parallel_forest.rs:2065-2081 | undo-all then redo-forward restores one key from any value it was left with |
| History.RunKeepsInv | src/forest_journal.rs:516-577 | the record invariant holds after every run of appends, last-first rollbacks and prunes |
| History.ReplayRestores | src/parallel_forest.rs:2065-2081 | after any such run, replay restores exactly base plus forward records from any disk that differs only at touched keys, the count included |
| Proofs.LeafHashAtProof | src/parallel_forest.rs:1585-1630 | the hash read at a live leaf's proof position is the leaf's hash |
| Proofs.SiblingsHash | src/parallel_forest.rs:1585-1630 | sibling proof positions resolve together, and then hash to what is read at the position above |
| Proofs.ProofFolds | src/parallel_forest.rs:1585-1630 | from any position that resolves, the sibling hashes the forest supplies fold to the stored root |
| Proofs.EveryLeafProves | src/parallel_forest.rs:2850-2874 | every live leaf has a proof, and it verifies against the root of its tree |
| Proofs.ProofCoordsApart | src/parallel_forest.rs:2850-2874 | distinct live leaves get distinct proof positions, neither above the other, for any spent pattern and any capacity |
| Walks.ContainingRoot | src/parallel_forest.rs:1565-1581 | finds the one root above a stored position; none exactly where no leaf lies below |
| Walks.CompressedHash | src/parallel_forest.rs:1585-1630 | the descent past spent levels returns the hash of the promoted forest at any proof position, none where it has no node, and never reads an uninitialized cell |
| Walks.ProofPositionFromSpent | src/parallel_forest.rs:2850-2874 | climbing with packed turns and descending in the proof layout gives the promoted position; fails iff a sibling is unknown |
| Walks.PromotedIsProofCoord | src/parallel_forest.rs:2850-2874 | with truthful sibling states the position found is the leaf's proof coordinate |
| Detwin.CollectSpent | src/parallel_forest.rs:2876-2910 | the detwinned frontier stays strictly sorted, terminates by the bound on distinct positions, and leaves every sibling any target needs known and true |
| Detwin.TranslateProofPositions | src/parallel_forest.rs:2876-2921 | in place, every live target gets the position its own direct walk would give; no sibling is ever missing |
| Overlay.ForestOverlay.Push | src/parallel_forest.rs:1180-1192 | the block's changes overlay whatever was there, removals before additions |
| Overlay.ForestOverlay.Retire | src/parallel_forest.rs:1194-1212 | only changes last made at the retired height are dropped |
| Overlay.RetireFirstNode | src/parallel_forest.rs:1194-1212 | retiring the oldest pending block leaves the last change each remaining block made to a node |
| Overlay.RetireFirstIndex | src/parallel_forest.rs:1194-1212 | the same for outpoints |
| Pipeline.FlatFileProver.ViewIsCurrent | src/parallel_forest.rs:1217-1279 | in every reachable state the durable forest and leaf map seen through the overlay are the state after the last proved block |
| Pipeline.FlatFileProver.FindPositions | src/prover.rs:1412-1480 | cache or overlaid map give the position the current state has; fails iff some outpoint has none in the forest |
| Pipeline.UpdatedCache | src/prover.rs:1684-1703 | spent leaves out, created ones in at their positions, none older than 144 blocks |
| Pipeline.CacheExtends | src/prover.rs:1684-1703 | the recent-leaf cache keeps agreeing with the state after the last proved block |
| Pipeline.StaysMapped | src/parallel_forest.rs:2012-2051 | proving a block keeps the leaf map naming unspent leaves only, different ones for different outpoints |
| Pipeline.FlatFileProver.ProveBlock | src/prover.rs:1134-1208 | a proved block extends the chain of states by its marked and appended bottom row and joins the window, and a window of 100 goes to the worker; each of the three errors has its exact condition and changes nothing |
| Pipeline.FlatFileProver.WorkerApply | src/prover.rs:168-254 | the window always extends the durable tip; applying it stores the state after its last block and leaves exactly the newest 144 durable records, or all |
| Pipeline.FlatFileProver.RetireApply | src/prover.rs:920-946 | a completion takes exactly the submitted blocks out of queue and overlay: what stays pending is the accumulating window, and nothing is in flight |
| Pipeline.FlatFileProver.WaitForApply | src/prover.rs:961-968 | called only with something submitted; no state is lost, and records are dropped only as the worker does |
| Pipeline.FlatFileProver.DrainPendingApply | src/prover.rs:970-975 | ends with nothing submitted and only the accumulating window pending |
| Pipeline.FlatFileProver.ReservePersistence | src/prover.rs:977-992 | fewer than 200 blocks are pending whenever a block starts, so the waiting loop there is never entered |
| Pipeline.FlatFileProver.PublishPending | src/prover.rs:994-1019 | hands over the window after the last one was answered for, so at most one window is in flight and at most 200 blocks are pending |
| Pipeline.FlatFileProver.Sync | src/prover.rs:1728-1735 | everything proved becomes durable, the overlay is empty |
| Pipeline.FlatFileProver.EnsureForestCapacity | src/prover.rs:1030-1050 | the file grows only with nothing pending and an empty overlay; the state does not change; refused iff neither this file nor the tallest layout has room |
| Pipeline.FlatFileProver.DiscardUnpublished | src/prover.rs:1077-1095 | giving up the window returns to the state before it |
| Pipeline.FlatFileProver.RollbackTip | src/prover.rs:324-346 | undoing the durable tip returns to the state before it; refused iff no record is left |
| Pipeline.FlatFileProver.RollBackBlocks | src/prover.rs:1063-1116 | with n blocks durable since the start, or since the last rollback, min(n + records then, 144) rollbacks succeed, each landing on the state before |
| Pipeline.FlatFileProver.ReconcileOnce | src/prover.rs:1063-1116 | one turn of a reorganisation lands on the state before the unpublished window if there is one, else exactly one block lower; refused iff no record is left |
| Threads.WorkerUnseen | src/prover.rs:168-254 | whatever the producer is doing, the worker's steps change nothing it reads |
| Threads.LocatedRight | src/prover.rs:1412-1480 | a lookup at any moment gives the position in the state after the last queued block, none iff there is none |
| Threads.EnqueuesKeeps | src/prover.rs:1190-1207 | a block is queued against the state it was looked up and planned for, whatever the worker did meanwhile |
| Threads.ProducerKeeps | src/prover.rs:920-1207 | every producer step, of a block, a window, a completion, a resize or a reorganisation, keeps the invariant |
| Threads.EveryRunSees | src/parallel_forest.rs:1217-1279 | over every interleaving of the two threads the overlaid forest and leaf map are the state after the last queued block, with at most 200 pending |
| Serving.LoadPath | src/parallel_forest.rs:1585-1630 | reading the sibling positions up to the root through the overlay gives exactly the proof of a position |
| Serving.ProveSpends | src/prover.rs:1447-1530 | in every state each spent outpoint gets a target and a path that fold from its leaf to the current root of its tree; refused iff the state does not have an outpoint |
| Resize.GrownReads | src/parallel_forest.rs:597-641 | growing changes no reading of a coordinate, outpoint or count |
| Resize.RangesApart | src/parallel_forest.rs:643-711 | copy sources, destinations and the cleared range never conflict |
| Resize.StepKeepsResizing | src/parallel_forest.rs:550-595 | any partial, unordered or torn write of either stage keeps what resuming needs |
| Resize.EveryRunGrows | src/parallel_forest.rs:532-711 | however often it stops, a resize that finishes leaves every old node at its translated position and all else uninitialized |
| Resize.FlatForest.CopyInternalRows | src/parallel_forest.rs:643-665 | copies every upper row whatever the destinations held |
| Resize.FlatForest.ClearNewBottomRange | src/parallel_forest.rs:667-711 | zeroes exactly the range between the old and the new bottom row |
| Resize.FlatForest.ResumeResize | src/parallel_forest.rs:550-595 | from any interruption the length check passes and the resize completes, every durable effect on the way being a step of the interruptible resize |
| Resize.FlatForest.ResizeToRows | src/parallel_forest.rs:525-548 | first finishes a resize that stopped anywhere, then grows: the result is the original file at the taller of the two heights |
| Wal.ScanPublished | src/forest_journal.rs:911-931 | accepts iff every record from the replay floor to the boundary is whole and the last is the one named, and returns them |
| Wal.Open | src/forest_journal.rs:214-273 | opens at the newer slot iff the slots are valid and in order and its records scan; each error has its cause; unpublished records are dropped and everything above the floor is kept for rollback |
| Wal.ReadsWinner | src/forest_journal.rs:972-1033 | after any crash the newer readable slot is the last flushed marker or the one being written |
| Wal.CrashReopens | src/forest_journal.rs:214-273 | from any reachable state and any crash the journal opens at the last returned or the in-flight boundary, with the records written there, and the invariant holds again |
| Wal.MarkerKeeps | src/forest_journal.rs:963-970 | a flushed marker, of a publish or of either prune write, keeps both slots covered and ordered |
| Wal.PunchKeeps | src/forest_journal.rs:677-696 | punching never touches a record either slot covers |
| Wal.DiscardKeeps | src/forest_journal.rs:499-513 | discarding keeps everything published |
| Wal.AfterDiscard | src/forest_journal.rs:499-513 | a discard cuts at the published end: the next append is the record with that number |
| Wal.DiscardedGone | src/forest_journal.rs:499-513 | over every run, what is found behind the published end of a discard was appended after it |
| Wal.DiscardedNeverOpens | src/forest_journal.rs:214-273 | no later open, after any crash, returns a discarded record |
| Wal.Provenance | src/forest_journal.rs:434-471 | over every run, each record above the floor was appended with this number and payload and has been there ever since |
| Wal.PoisonHolds | src/forest_journal.rs:441-443 | until it is reopened a failed journal accepts nothing |
| Wal.RollbackLasts | src/forest_journal.rs:516-543 | once a rollback has returned every crash finds that record rolled back and the others as they were |
| Wal.PruneRaisesBoth | src/forest_journal.rs:622-696 | a prune raises the floor in both slots before it deallocates, and then only what lies below it |
| Wal.IdleAccepts | src/forest_journal.rs:434-577 | an idle journal that has not failed accepts append, discard, rollback and prune |
| Wal.PublishingGoesOn | src/forest_journal.rs:583-620 | a publication that has begun can always be finished, and appends go on meanwhile |
| Wal.StepKeepsInv | src/forest_journal.rs:434-697 | append, publish, discard, rollback status, prune, failure and crash all keep the invariant and every published record |
| Wal.RunKeepsPublished | src/forest_journal.rs:583-697 | over any run with any crashes nothing published is lost or altered above the replay floor |
| Wal.EveryCrashOpens | src/forest_journal.rs:214-273 | after any run, whatever a crash leaves opens, at one of two boundaries, reading no punched record |
| Wal.BoundaryStillNames | src/forest_journal.rs:473-620 | a boundary captured earlier by the running process is accepted for publication iff no discard came since, whatever was appended, published, pruned or rolled back |
| Codec.DecodeOfEncode | src/forest_journal.rs:1215-1361 | every encodable entry decodes to itself |
| Codec.EncodeOfDecode | src/forest_journal.rs:1243-1361 | every accepted byte string is the encoding of what it decodes to |
| Codec.EncodeEntry | src/forest_journal.rs:1215-1241 | fails iff a vector has 2^32 elements or the row byte exceeds 63; else every field lies where the format puts it, little-endian, 74 bytes a delta with a flag byte odd iff ready and at least 2 iff spent, 44 bytes a location |
| Codec.DecodeEntry | src/forest_journal.rs:1243-1292 | accepts exactly the encodings, and returns the one entry laid out in these bytes |
| Codec.ForestWrites | src/forest_journal.rs:1336-1345 | a believed vector length is followed by exactly that many elements |
| ProofStore.ProofFile.Append | src/blockfile.rs:43-64 | what is appended reads back, earlier proofs are unchanged; refused iff too large |
| ProofStore.ProofFile.Lookup | src/blockfile.rs:66-89 | reads exactly the indexed bytes, nothing outside the file or above the size limit |
| ProofStore.ProofFile.TruncateAfter | src/blockfile.rs:91-109 | cuts at the proof's end; every proof that ends no later stays readable |
| Recovery.RemoveHeader | src/header_index.rs:261-280 | the block leaves both directions of the index, by height and, where its hash led there, by hash; never another block at its height |
| Recovery.RepairRecords | src/prover.rs:605-632 | one pass puts retained headers back, finds the first unreadable proof and appends it and every later one |
| Recovery.ProofsSettled | src/prover.rs:605-637 | after the repair every proof is readable; they lie in file order iff those before the first unreadable one did |
| Recovery.FirstGap | src/prover.rs:650-680 | finds the lowest height without a valid header and proof, if there is one |
| Recovery.HeightValidMeans | src/prover.rs:650-680 | valid is: a header, an index entry for its hash within the file, and no other hash in the journal |
| Recovery.RemoveOrphans | src/prover.rs:759-788 | rolled-back blocks leave the indexes unless active again, everything else stays |
| Recovery.TipIsChainTip | src/prover.rs:792-811 | the journal's latest forward record, or what its oldest followed, is the tip of the chain |
| Recovery.EndsBeforeTip | src/prover.rs:823-834 | in file order no proof ends behind the tip's, so cutting there loses none |
| Recovery.ReconciledSettles | src/prover.rs:595-846 | what startup writes in all, repairs, removals, cut and height, shows exactly the chain iff the proofs in front of the first unreadable one lay in file order |
| Recovery.Recover | src/prover.rs:595-846 | headers, proof index, proof bytes and height end up showing exactly the journal's chain iff the proofs in front of the first unreadable one lay in file order; no height is given up |
| Interruption.PersistRecoverable | src/prover.rs:190-246 | once published, every point of a persist is recoverable to the new tip |
| Interruption.UntouchedRecoverable | src/prover.rs:173-190 | before publication the stores are recoverable to the old tip |
| Interruption.RollbackRecoverable | src/prover.rs:324-364 | once the record is marked, every point of a rollback is recoverable to the tip below |
| Interruption.PersistForest | src/prover.rs:220-240 | replay brings the forest to the new tip from any partly applied window |
| Interruption.RollbackForest | src/prover.rs:338-346 | replay brings the forest below the tip from any partly undone block |
| Interruption.CountMatchesTip | src/prover.rs:792-822 | the replayed leaf count is the one the journal tip names |
| Interruption.JournalGrows | src/forest_journal.rs:434-471 | publishing a window keeps the journal fitting the longer chain |
| Interruption.JournalShrinks | src/forest_journal.rs:516-543 | marking the latest forward record back keeps the journal fitting the shorter chain |
| Interruption.JournalPruned | src/forest_journal.rs:549-577 | dropping the records in front of a forward one keeps the journal fitting the chain, with no active block taken for an orphan |
| Persist.PersistWindow | src/prover.rs:195-246 | proofs, headers, index entries, height: every prefix is recoverable and the whole shows the extended chain |
| Persist.RollbackTip | src/prover.rs:347-363 | removing the tip and cutting the proof file shows the chain without it |
| Repair.RepairInterruptible | src/prover.rs:624-637 | every stop between two index writes restarts settled iff nothing readable followed the first unreadable proof; else a stop that fails is named |
| Repair.StartAgain | src/prover.rs:595-846 | starting from a stop of the repair ends settled iff the proofs in front of the first unreadable one are in order there |
| Repair.RepairRecoverable | src/prover.rs:624-637 | with nothing readable behind the first unreadable proof, startup can be repeated from every stop to the same tip |
| Repair.PersistNothingAfter | src/prover.rs:190-246 | a persist stopped anywhere leaves nothing readable behind its first unreadable proof |
| Repair.PersistRepairRecoverable | src/prover.rs:190-246 | so the repair after any interrupted persist may itself stop anywhere |
| Repair.AppendsInterrupted | src/prover.rs:605-634 | startup stopped while it appends proofs and puts headers back stays recoverable to the same tip |
| Repair.OrphansInterrupted | src/prover.rs:759-788 | startup stopped among the removals of orphans stays recoverable |
| Repair.CutInterrupted | src/prover.rs:823-836 | startup stopped after cutting the proof file, before or after committing the height, stays recoverable |
| Repair.InteriorDamageExample | src/prover.rs:624-637 | two blocks, the first proof damaged: stopping after one index write makes the next start cut the repaired proof off |
| Startup.Restart | src/prover.rs:732-846 | forest, leaf map, count, headers, proofs and height all end at one tip, and startup's own leaf-count check passes |
| Startup.RestartAfterPersist | src/prover.rs:168-257 | a persist stopped anywhere, the prune that ends it included, restarts at exactly the old tip, or exactly the new one, in every store, and the journal left over fits that tip |
| Startup.PrunedHistory | src/forest_journal.rs:549-577 | the history without the pruned records has the same state and keeps its invariant at every key |
| Startup.ReplayInterrupted | src/parallel_forest.rs:2065-2081 | replay stopped anywhere can be repeated to the same state |
| Startup.RestartAfterRollback | src/prover.rs:324-364 | a rollback stopped anywhere restarts at exactly the old tip, or exactly the one below, in every store |
| Reopen.EveryOpenYields | src/forest_journal.rs:214-273 | over every run and crash a reopened journal yields the published records, or those plus the window in flight, or those minus the prefix being pruned, or those with the status in flight undone |
| Reopen.CrashStops | src/forest_journal.rs:583-697 | a crash in a persist, by where it was, yields the journal of one of its stopping points |
| Reopen.ReopenAfterPersist | src/prover.rs:168-257 | from the bytes a crash in a persist leaves, open, replay and reconcile end at exactly the old or exactly the new tip |
| Reopen.ReopenAfterRollback | src/prover.rs:324-364 | the same for a crash in a rollback: the old tip or the one below |
| Reopen.RecoverProver | src/prover.rs:732-892 | the prover built after such a restart is at the stopped one's state before its submitted window or after it, and stands again on settled stores, a fitting history and a quiet journal |
| Reopen.RecoverProverAfterRollback | src/prover.rs:732-892 | after a crash in a rollback the prover stands again, at the tip's state or at the one below |
| Lives.StepReaches | src/forest_journal.rs:583-697 | each journal step of a persist, the producer's appends included, leads to the same or the next phase |
| Lives.AlongPersist | src/forest_journal.rs:583-697 | from a quiet journal, at every point of every persist of a captured boundary, the journal is in a phase from which a crash restarts at the old or the new tip |
| Lives.PersistStands | src/prover.rs:168-257 | when a persist completes the prover stands again, one window further, with the blocks proved meanwhile still pending |
| Lives.PrunesAlike | src/prover.rs:247-252 | pruning the journal to 144 forward records leaves as many as the prover keeps |
| Lives.RollbackStands | src/prover.rs:324-364 | when a rollback completes the prover stands one block lower |
| Lives.AheadStands | src/prover.rs:977-1207 | whatever the producer does ahead of the worker, the prover goes on standing |
| Lives.FirstStands | src/prover.rs:732-892 | a prover on a bootstrapped forest with a new journal stands |
| Lifetime.StepKeepsSound | src/prover.rs:168-364 | what persists, prunes, resizes, rollbacks, startup and stops anywhere in them write keeps stores, journal and forest at, or recoverable to, one chain |
| Lifetime.EveryLifeIsSound | src/prover.rs:595-846 | over every life of a node, whenever it is up all its stores and its forest show one chain, and whenever it is down they meet what startup needs |
| Lifetime.Start | src/prover.rs:732-846 | from every such node that is down startup runs, and its result is the step to a node that is up |
| Lifetime.PersistAll | src/prover.rs:168-246 | persisting a window is the step to the longer chain |
| Lifetime.RollBack | src/prover.rs:324-364 | rolling back is the step to the shorter chain |
| Build.StepKeepsInv | src/parallel_forest.rs:777-921 | put, announce, pass, sleep and acquire keep the build invariant for any workers and schedule |
| Build.PutNeverFails | src/parallel_forest.rs:777-790 | no worker finds a cell it is to write already written, or a child missing |
| Build.WriteOnce | src/parallel_forest.rs:777-790 | a written cell is never written again |
| Build.WaitsLower | src/parallel_forest.rs:882-921 | whoever must put or announce what a blocked worker awaits waits only for a lower row |
| Build.NoDeadlock | src/parallel_forest.rs:864-921 | in every unfinished state some worker makes progress: no deadlock and no lost wakeup |
| Build.StepLowersRank | src/parallel_forest.rs:864-921 | every step of every worker, going to sleep included, lowers a rank |
| Build.EveryRunEnds | src/parallel_forest.rs:2631-2663 | no schedule has more steps than the rank it starts with, and one in which nobody can go on has built exactly the forest of the leaves |
| Build.FinishedIsRebuild | src/parallel_forest.rs:2631-2663 | a finished build is the forest rebuilt from the leaves at any preallocated height |
| Build.FinishedRunsAgree | src/parallel_forest.rs:2287-2413 | all finished runs over the same leaves agree |
| Schedule.ChunksPartition | src/parallel_forest.rs:2774-2792 | the deterministic ranges of a row partition its parents |
| Schedule.OwnerIsRemainder | src/parallel_forest.rs:2603-2625 | a range belongs to the chaser with its number modulo the number of chasers |
| Schedule.ChaserOrdered | src/parallel_forest.rs:2584-2629 | a chaser puts exactly its share of every row, each once, children awaited first, each range announced |
| Schedule.RangePuts | src/parallel_forest.rs:2427-2545 | a run of heights puts exactly its leaves, each once, awaiting nothing and ending announced |
| Schedule.StartInv | src/parallel_forest.rs:2287-2413 | for any number of workers the jobs put every node exactly once in an order that satisfies the invariant |
| Scanner.SameBlockSpends | src/bin/bridge-hints.rs:275-298 | exactly the outpoints that a later transaction of the block spends from an earlier one |
| Scanner.SameSpends | src/prover.rs:1343-1351 | scanner and prover agree on what a block spends |
| Scanner.ApplyBlock | src/bin/bridge-hints.rs:224-273 | on success exactly the outpoints taken from earlier blocks are gone and exactly the outputs that may be spent and are not spent in the block are there, each numbered by those before it; fails iff an input is unknown or taken twice, or a leaf is still unspent or made twice |
| Scanner.LeavesNumbered | src/bin/bridge-hints.rs:250-273 | the leaves of a block, with their hashes, in the order of transactions and outputs |
| Hints.Scan | src/bin/bridge-hints.rs:116-125 | the scan of a chain and its leaf counts |
| Hints.ScanOneMore | src/bin/bridge-hints.rs:116-125 | the scan of a longer chain, block by block: when it fails and what it leaves |
| Hints.BlockKeepsMatch | src/bin/bridge-hints.rs:224-273 | one block keeps the scanner's outputs in step with the proved bottom row and leaf map, leaf for leaf |
| Hints.RunMatchesScan | src/parallel_forest.rs:1749-1899 | scanning a chain and planning and applying it block by block stay in step |
| Hints.CollectUnspentIndices | src/bin/bridge-hints.rs:315-345 | per height, strictly ascending, exactly the indices still unspent; refused iff a position is beyond the stop height or occurs twice |
| Hints.FillBlock | src/parallel_forest.rs:2443-2519 | leaves not hinted are spent, hinted ones are indexed; refused iff hints are not increasing or lie outside the block |
| Hints.FillFromHints | src/parallel_forest.rs:2427-2545 | filling every height gives the bottom row and leaf map of proving the blocks |
| Hints.Bootstrap | src/parallel_forest.rs:2427-2545 | scan, collect and fill give the bottom row and the leaf map of a sequential run, entry for entry |
| Hints.BuiltIsProved | src/parallel_forest.rs:2287-2413 | a finished parallel build over that row is, node for node, the sequentially proved forest |
| Sequential.SpendsFound | src/prover.rs:1412-1480 | for an accepted block the leaf map has every outpoint it spends |
| Sequential.ProveSequentially | src/parallel_forest.rs:1749-1979 | every chain of at most 2^62 leaves that the scanner accepts is proved block by block, from a file of any height, grown when a block needs it: no lookup fails and no block is refused |
| Sequential.BootstrapOrProve | src/parallel_forest.rs:2427-2545 | for every such chain the bootstrapped row and leaf map are the last of a sequential run of it |
| Sequential.FirstProver | src/prover.rs:732-892 | the forest rebuilt over the bootstrapped row, with the bootstrapped leaf map, is a valid prover whose state is the last of a sequential run of the chain |

## Left out

- mmap, mlock, madvise, fallocate, fsync, file paths and directory syncs beyond their abstract effect.
- floresta-db internals: the leaf map and header index are maps keyed by the full outpoint or hash; its hard-kill limitation (README.md:361-366) is outside the model.
- rustreexo `Pollard` and `Stump`, cache eviction, and the comparison of planned roots with them; only the flat-forest side is modelled.
- SHA-256, SHA-512/256 and leaf hashing: hashes are opaque values.
- Bitcoin header and compact proof codecs inside replay payloads: a proof is its bytes, a header its hash and its predecessor's hash, so undecodable proof bytes cannot occur in the model.
- src/node.rs, src/chaininterface.rs, src/esplora.rs, src/chainview.rs, src/cli.rs, src/main.rs and src/bitcoin_bridge.rs: networking, RPC, storage wrappers and wiring, which would add only easier members.
- Timings, statistics and logging.
- Memory orderings: each cell access and each mutex section is one atomic step; the epoch counter does not wrap.
- The two BIP 30 outpoints: a constant special case of the scanner and of the fill.
- Legacy journal import, records without a row byte in replay, and position recovery by scanning a block: one-off repair paths.
- Recovery.FirstGap: finds a gap; the policy of giving heights up there (src/prover.rs:681-703) is not modelled, since recovery proves there is none for published records.
- Wal: records are numbered instead of byte-addressed, the publisher, the pruner and the producer are steps of one machine instead of objects, and generations do not overflow.
- Wal.Open: magic numbers, versions, spans and page alignment of records are folded into one readable-or-not test.
- Resize: the creation of the marker file is one atomic step; a crash that leaves a partly written marker makes the program refuse to open, and is not recovered from.
- Pipeline.FlatFileProver.ProveBlock: the height index of recent block hashes is not part of it, and the proof is built in `Serving.ProveSpends`; an outpoint the map does not have is an error instead of a recovery by scanning.
- Pipeline.FlatFileProver.RollbackTip: the journal holds only forward records there; rolled-back records and pruning by record are in `History` and `Wal`.
- Pipeline.FlatFileProver.FindPositions: the recovery of a missing position by scanning the creating block is not part of it.
- Pipeline.FlatFileProver.WorkerApply: the proof, header and index stores that persist writes first are in `Persist`, not in this class.
- ProofStore.ProofFile.Lookup: every byte string of an admissible length is a proof, so bytes that do not decode cannot occur.
- Serving.ProveSpends: each target gets its own path; the batch proof that shares hashes between targets, and the Pollard that caches them, are not modelled.
- Interruption.RollbackRecoverable: the removal of one header is atomic.
- Recovery.Recover: header, proof index and height are values the methods return, not objects updated in place; the proof file is an object.
- Build.NoDeadlock: aborting after a failed worker is not modelled, builds are fault-free; spinning before sleeping is one kind of waiting.
- Hints.CollectUnspentIndices: height 0, where no leaf lies, is checked for duplicates like the others.
- Hints.FillBlock: a height's leaf outputs are given as a list; the declared leaf count and the header writes of the fill are not part of it.
- Planner.PlanUpdate: planning in parallel above 128 nodes gives the same map and is modelled sequentially.
