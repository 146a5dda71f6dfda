# H2 storage engine, graph and wire codecs in Dafny

This project models the storage engine `h2-mvstore` with its durability protocol, the graph store and
its traversals, synchronous replication, and the byte formats around them, and proves what they promise.

- **Tree** (`Bytes`, `SortedEntries`, `BTree`, `TreeScan`, `MVTree`): the copy-on-write B+tree against finite
  maps under lexicographic key order. The invariant is about separator bounds, because separators go stale and
  leaves may be empty.
- **Durability** (`ChangeLog`, `MapJournal`, `Checkpoints`, `CheckpointRuns`, `Durability`, `DurabilityProof`,
  `DurabilityRuns`, `DurabilityCommits`, `Recovery`, `DurableStore`): a state machine whose events are enqueue, flush with a
  successful or failed sync, each file operation of a checkpoint, crash and reopen. Its theorems quantify over
  every run. `Recovery` and `DurableStore` are the imperative code (loops over maps, deltas, records), proved
  to take exactly these steps. `DurabilityCommits` follows what a committer hands in to what the maps hold.
- **Files** (`Encoding`, `Checksum`, `WalFrames`, `FileStore`, `HeaderTears`, `Backup`, `Archive`, `PointInTime`,
  `Damage`): the checksum, log frames and torn tails, header slots and chains, backup and archive, restore from their bytes, and
  what a changed byte does.
- **Replication** (`Replication`, `ReplicationAnswers`): primary, connection handler and standby as protocol
  steps, and what `on_commit` answers.
- **Graph** (`GraphStore`, `GraphEffects`, `GraphCases`, `GraphPattern`, `PatternTypes`, `ShortestPath`, `VarLength`): adjacency
  keys, edge patterns, breadth-first shortest path, enumeration of trails.
- **Codecs and clock** (`Utf8`, `Utf8Chars`, `PackStream`, `PackStreamLaws`, `PackStreamGrammar`, `BoltFraming`,
  `RowCodec`, `RowGrammar`, `RowScan`, `ClockReplacer`). `KnownBytes` pins all byte formats by literals.

`dafny verify dfyconfig.toml` checks everything.

What turned out not to hold of the code as it stands, each with its exact condition or a concrete case:

- A checkpointed map name that is dropped or renamed away and reused before the next checkpoint brings old
  entries back (`CheckpointRuns.ReusedNameRevivesEntries`; exact condition in `CheckpointRuns.CheckpointExactIff`).
- Saving an existing edge with other ends or another type leaves a stale adjacency key, and the edge is listed
  where it no longer ends (exact condition in `GraphStore.SaveEdgeKeepsIff`, concrete case in
  `GraphCases.MovedEdge`).
- A pattern with several edge types asks the store only for the first and misses edges of the others (exact
  condition in `PatternTypes.SeveralTypesExactly` and `PatternTypes.PlainTypesExactly`, concrete case in
  `PatternTypes.SecondTypeMissed`).
- The column scan treats an identifier as length-prefixed and stops at arrays and intervals (exact condition for
  each column in `RowScan.ValueField`; `RowScan.MisledByUuid`, `RowScan.BlockedByArray`). Behind an identifier it
  may still agree with decoding by accident (`RowScan.RightByAccident`), so for a whole row only one direction can
  be stated on the earlier columns.
- Byte arrays are encoded but not decoded, and a structure of 65536 fields or more loses its count
  (`PackStreamLaws.RoundTripExactly`).
- Two crashes in a row while header records are written can leave a file that does not open, or fall back to an
  older header (exact condition in `FileStore.TornTwice`; reachable from every settled file by
  `HeaderTears.DoubleCrash` and `HeaderTears.StaleFallback`).
- A commit handed over after a standby connected but before its handler subscribed, or while a record has
  overtaken the snapshot, waits in vain until the timeout (exact condition in
  `ReplicationAnswers.SuccessPossibleIff`).
- A page size of zero (`MVTree.ZeroPageSize`).

## Model

| member | source | states |
|---|---|---|
| `BTree.Search` | crates/h2-mvstore/src/page.rs:66-76 | The result of searching a page: the index of a present key, or where an absent one belongs, all keys before it smaller and all from there larger |
| `BTree.FlattenSorted` | crates/h2-mvstore/src/tree.rs:198-215 | Every well-formed page lists its entries in strictly increasing key order, all within its separator bounds |
| `BTree.CutAtChild` | crates/h2-mvstore/src/tree.rs:157-195 | Around the child chosen for a key, everything to the left is smaller and everything to the right larger, although separators may be stale |
| `BTree.LeafPutIsPut` | crates/h2-mvstore/src/tree.rs:81-107 | Inserting into or overwriting in a leaf is the finite-map update of its sorted entries |
| `BTree.InsertCorrect` | crates/h2-mvstore/src/tree.rs:74-155 | Recursive insert with leaf and branch splits keeps bounds, equal leaf depth and page size, and its contents are the old contents updated at the key |
| `BTree.SplitsEvenly` | crates/h2-mvstore/src/tree.rs:90-142 | A page that splits gives two of nearly the same size, with one entry or key more between them than a page may hold |
| `BTree.LeafRemoveCorrect` | crates/h2-mvstore/src/tree.rs:157-175 | Removing from a leaf deletes exactly the key and returns its value |
| `BTree.RemoveCorrect` | crates/h2-mvstore/src/tree.rs:157-195 | Recursive remove without merging keeps the tree well-formed, deletes exactly the key and returns what was stored there |
| `MVTree.RootPutCorrect` | crates/h2-mvstore/src/tree.rs:52-62 | A split root grows the tree by one level and stays well-formed; otherwise the depth is unchanged |
| `MVTree.MVTree.Get` | crates/h2-mvstore/src/tree.rs:30-50 | The descending loop returns what a lookup in the listed contents returns |
| `MVTree.MVTree.Put` | crates/h2-mvstore/src/tree.rs:52-62 | The contents become the old contents with the key updated, the tree stays valid |
| `MVTree.MVTree.Remove` | crates/h2-mvstore/src/tree.rs:64-72 | The contents lose exactly the key, and its former value is returned |
| `MVTree.MVTree.ScanAll` | crates/h2-mvstore/src/tree.rs:198-215 | Lists the whole contents in key order |
| `MVTree.MVTree.ScanPrefix` | crates/h2-mvstore/src/tree.rs:238-278 | Exactly the entries of the full scan with the prefix, in the same order |
| `MVTree.MVTree.ScanRange` | crates/h2-mvstore/src/tree.rs:280-341 | Exactly the entries of the full scan within the bounds, in the same order |
| `MVTree.StepCorrect` | crates/h2-mvstore/src/tree.rs:52-72 | One put or remove does to the tree's contents what it does to a finite map, and keeps it valid |
| `MVTree.RunIsFiniteMap` | crates/h2-mvstore/src/tree.rs:30-215 | After every sequence of puts and removes from the empty tree, the scan is strictly sorted and get, put, remove and scan are those of the finite map the sequence computes |
| `MVTree.ZeroPageSize` | crates/h2-mvstore/src/tree.rs:22-28 | With a page size of zero the first put already breaks the page bound, whatever the key: a size of at least one is what the tree needs |
| `TreeScan.CollectEntries` | crates/h2-mvstore/src/tree.rs:204-215 | Appends every entry under a page, in order |
| `TreeScan.AfterPrefix` | crates/h2-mvstore/src/tree.rs:244-278 | A key at or after a prefix without having it comes after every key that has it: why the prefix scan may stop |
| `TreeScan.CollectPrefix` | crates/h2-mvstore/src/tree.rs:244-278 | The pruned prefix scan of any well-formed subtree appends exactly the filter of its entries by prefix |
| `TreeScan.CollectRange` | crates/h2-mvstore/src/tree.rs:286-341 | The pruned range scan of any well-formed subtree appends exactly the filter of its entries by bounds, for every kind of bound |
| `TreeScan.InvertedRange` | crates/h2-mvstore/src/tree.rs:280-341 | A range whose end lies before its start selects nothing |
| `TreeScan.MatchesExactly` | crates/h2-mvstore/src/tree.rs:238-341 | A prefix query selects the extensions of its prefix, a range query the keys strictly between its ends and its included ends |
| `Bytes.LessExactly` | crates/h2-mvstore/src/tree.rs:83-83 | Keys compare by their first differing byte, a proper prefix coming first |
| `ChangeLog.ApplyAllAt` | crates/h2-mvstore/src/store.rs:185-204 | What a list of changes leaves at a key is its last write there |
| `ChangeLog.LastChangeDecides` | crates/h2-mvstore/src/store.rs:185-204 | The last change of a key in a list decides whether the key is there and what it holds, whatever came before |
| `ChangeLog.UnwrittenStays` | crates/h2-mvstore/src/store.rs:185-204 | A key that no change writes is as it was |
| `ChangeLog.ReplayAbsorbs` | crates/h2-mvstore/src/store.rs:180-204 | Replaying a stretch of the log over a state that already contains it changes nothing |
| `ChangeLog.ReplayFromEarlier` | crates/h2-mvstore/src/store.rs:180-204 | Replaying from any earlier position over a later state gives the fold of the whole log |
| `MapJournal.MutationsTrack` | crates/h2-mvstore/src/map.rs:84-141 | Every put, remove and clear keeps image plus journal equal to the live map |
| `MapJournal.MergeComposes` | crates/h2-mvstore/src/map.rs:182-197 | Restoring a drained journal is composition: applying the merged journal is applying the drained one and then the current one |
| `MapJournal.ClearErases` | crates/h2-mvstore/src/map.rs:130-142 | After a clear, whatever was journalled before, the journal makes every image empty |
| `MapJournal.RunContents` | crates/h2-mvstore/src/map.rs:84-197 | After any interleaving of mutations, drains and checkpoints a key holds what its last put gave it, nothing after a remove or a clear, and what it held before if untouched |
| `MapJournal.DrainPersists` | crates/h2-mvstore/src/map.rs:162-172 | Draining and persisting the delta makes the persisted image the live map |
| `MapJournal.ClearedPersists` | crates/h2-mvstore/src/map.rs:130-172 | A run that ends with clear, drain and persist leaves an empty image |
| `MapJournal.ApplyAgrees` | crates/h2-mvstore/src/map.rs:182-197 | Two images become the same map under a journal if and only if it clears, or they agree on every key it does not mention |
| `MapJournal.MVMap.Put` | crates/h2-mvstore/src/map.rs:84-94 | The live map and its journal change together |
| `MapJournal.MVMap.Remove` | crates/h2-mvstore/src/map.rs:96-107 | Only a present key is journalled as removed |
| `MapJournal.MVMap.Clear` | crates/h2-mvstore/src/map.rs:130-142 | The map is empty and, when journalling, the journal is exactly a clear mark |
| `MapJournal.MVMap.GetSerializedRoot` | crates/h2-mvstore/src/map.rs:144-156 | Cached or not, the root returned is the current one |
| `MapJournal.MVMap.TakeJournal` | crates/h2-mvstore/src/map.rs:162-172 | Hands out the journal and leaves an empty one with the same setting |
| `MapJournal.MVMap.RestoreJournal` | crates/h2-mvstore/src/map.rs:182-197 | The journal becomes the merge of the drained one and the current one, both branches of the code |
| `MapJournal.JournalEventConsistent` | crates/h2-mvstore/src/map.rs:84-197 | Each mutation, drain, root read, persist and failure keeps persisted image plus journals equal to the live map |
| `MapJournal.JournalRunConsistent` | crates/h2-mvstore/src/store.rs:472-552 | However these interleave, also with mutations between draining and reading the root, the journal stays exact |
| `Checkpoints.RebuildStable` | crates/h2-mvstore/src/file_store.rs:229-265 | Appending blocks leaves every earlier chain readable and unchanged |
| `Checkpoints.CheckpointRebuilds` | crates/h2-mvstore/src/store.rs:456-573 | Reading back a full chunk gives the live maps; reading back a delta gives each known map's image under its journal, and new maps whole |
| `Checkpoints.RebuiltExact` | crates/h2-mvstore/src/store.rs:472-520 | A delta is exact if and only if every known map's journal leads from its image to its contents |
| `CheckpointRuns.StepInv` | crates/h2-mvstore/src/store.rs:262-303 | Create, rename, drop, change, clear and checkpoint, failed or not, keep the chain readable and every journal exact from where it started |
| `CheckpointRuns.StepEffect` | crates/h2-mvstore/src/store.rs:262-303 | What each operation does to the maps: the changed key and no other, an emptied map, entries kept under a new name, a dropped map gone, nothing by a checkpoint |
| `CheckpointRuns.EffectReadBack` | crates/h2-mvstore/src/store.rs:456-573 | What an operation did is what the next checkpoint is read back with, where its name was not reused |
| `CheckpointRuns.MapsReadBack` | crates/h2-mvstore/src/store.rs:262-303 | Clear, rename and drop followed by a checkpoint are read back as an empty map, the old entries under the new name alone, and no map |
| `CheckpointRuns.CheckpointExactIff` | crates/h2-mvstore/src/store.rs:465-520 | After any sequence of operations a checkpoint is read back exactly if and only if, for every map under a checkpointed name, stored image and journal start agree where the journal is silent |
| `CheckpointRuns.RunExact` | crates/h2-mvstore/src/store.rs:456-573 | Where no checkpointed name is dropped or renamed away and reused before the next checkpoint, base and deltas always rebuild the last checkpoint exactly |
| `CheckpointRuns.LastCheckpointRebuilt` | crates/h2-mvstore/src/store.rs:109-169 | What is read back are the names and contents at the last checkpoint, whatever happened after it |
| `CheckpointRuns.ReusedNameRevivesEntries` | crates/h2-mvstore/src/store.rs:488-517 | Dropping a checkpointed map and opening its name again brings its old entry back: the recreated map gets a delta without a clear mark |
| `CheckpointRuns.RestoreUndoesTake` | crates/h2-mvstore/src/map.rs:162-197 | Draining all journals and putting them back, as a failed checkpoint does, leaves every map and journal as it was |
| `DurabilityRuns.StepKeeps` | crates/h2-mvstore/src/store.rs:307-573 | Every step (enqueue, flush, each part of a checkpoint, crash, reopen) keeps: log, queue and slots fit together and every header that could be chosen recovers the durable history |
| `DurabilityRuns.OutcomesStand` | crates/h2-mvstore/src/store.rs:432-453 | What a committer was told is never changed or withdrawn |
| `DurabilityRuns.RunKeeps` | crates/h2-mvstore/src/store.rs:307-573 | The same for whole runs, with one outcome per commit and strictly increasing versions |
| `DurabilityRuns.CrashRecovery` | crates/h2-mvstore/src/store.rs:101-224 | In every reachable state, whatever the crash leaves of the unsynced batch and of the slots, open succeeds and rebuilds the fold of the durable commits and that prefix of the batch, in version order; every commit reported durable is among them and none reported as not durable |
| `DurabilityRuns.GroupCommit` | crates/h2-mvstore/src/store.rs:311-353 | In every reachable state a leader is set if and only if commits are pending, and the log is the synced frames followed by the pending ones in strictly increasing version order, the noted batch start being the boundary |
| `DurabilityRuns.FlushDecides` | crates/h2-mvstore/src/store.rs:368-453 | A flush gives every pending commit its one outcome and no other commit any; a failed one restores the log to the batch boundary and leaves maps and durable history alone |
| `DurabilityCommits.LogHoldsWhatWasHandedIn` | crates/h2-mvstore/src/store.rs:311-353 | In every run each pending, logged or durable commit carries exactly the transaction, changes and time its committer handed in |
| `DurabilityCommits.FlushWrites` | crates/h2-mvstore/src/store.rs:368-438 | A successful flush changes the maps to the last writes of the batch and nothing else |
| `DurabilityCommits.CommitTakesEffect` | crates/h2-mvstore/src/store.rs:311-438 | In any reachable idle store a commit and its successful flush leave at every key of every map the commit's last write there, or what was there before |
| `DurabilityCommits.CommitSurvives` | crates/h2-mvstore/src/store.rs:101-438 | The same after any crash and reopen that follow |
| `DurabilityCommits.RecoveredAsHandedIn` | crates/h2-mvstore/src/store.rs:101-224 | After any run, crash and reopen the maps hold the changes handed in by the durable commits, in order, and those of a prefix of the last batch |
| `DurabilityCommits.BeginSpends` | crates/h2-mvstore/src/store.rs:311-353 | A commit that is begun, refused or not, spends one version and one ticket, and a refused one is told so at once |
| `DurabilityCommits.CheckpointLeaves` | crates/h2-mvstore/src/store.rs:456-573 | A checkpoint leaves the entries of all maps and all outcomes alone, and empties the log only if it completes and clears it |
| `DurabilityCommits.OpenMapOpens` | crates/h2-mvstore/src/store.rs:262-275 | Opening a map adds an empty one under a new name and changes no other |
| `DurabilityProof.OpenRecovers` | crates/h2-mvstore/src/store.rs:101-224 | From any slot value a crash can leave, opening rebuilds the durable fold |
| `DurabilityProof.AppendChunkKeeps` | crates/h2-mvstore/src/store.rs:465-546 | Draining journals and appending a chunk keeps every header that could be chosen recoverable |
| `DurabilityProof.CheckpointFailsKeeps` | crates/h2-mvstore/src/store.rs:547-552 | Putting the journals back after a failed write restores exactness |
| `Recovery.ReplayDelta` | crates/h2-mvstore/src/store.rs:134-169 | The loops over removed names, map deltas and changed keys, in any order, compute the delta's effect, and fail if and only if a delta changes a map that is not there |
| `Recovery.ReadChain` | crates/h2-mvstore/src/file_store.rs:229-265 | Walking back collects the deltas whose replay over the base is the checkpoint |
| `Recovery.RebuildMaps` | crates/h2-mvstore/src/store.rs:109-169 | Base and deltas, replayed oldest first, give the rebuilt checkpoint or its failure |
| `Recovery.ReplayCommits` | crates/h2-mvstore/src/store.rs:185-204 | The nested loops over records and changes are the fold of the log over the live maps, creating maps as needed |
| `Recovery.HighestVersion` | crates/h2-mvstore/src/store.rs:184-188 | The version continues from the highest one in header and log |
| `Recovery.OpenStore` | crates/h2-mvstore/src/store.rs:101-224 | The whole of open, loop by loop, computes the recovery step of the state machine, failures included |
| `DurableStore.MVStore.BeginCommit` | crates/h2-mvstore/src/store.rs:311-353 | A commit up to its wait is the enqueue step: one frame with the next version and exactly the changes handed in, its place in the queue; the caller leads exactly if nobody did |
| `DurableStore.MVStore.RefuseAppend` | crates/h2-mvstore/src/store.rs:320-346 | A failed append spends a version, notes the batch start and leaves log and queue alone |
| `DurableStore.MVStore.FlushSynced` | crates/h2-mvstore/src/store.rs:368-438 | The leader's loops after a successful sync are the flush step: the maps become the changes of the batch applied in order, the version is raised, every committer told |
| `DurableStore.MVStore.FlushUnsynced` | crates/h2-mvstore/src/store.rs:426-438 | After a failed sync the log is cut to the batch start, the maps are untouched and every committer is told |
| `DurableStore.DrainToChunk` | crates/h2-mvstore/src/store.rs:465-546 | The loop over the maps, in any order, builds exactly the checkpoint's chunk and empties every journal |
| `DurableStore.MVStore.Checkpoint` | crates/h2-mvstore/src/store.rs:456-573 | A checkpoint whose k-th header operation fails, or that completes, with or without clearing the log, is the corresponding sequence of state machine steps |
| `DurableStore.CheckpointRun` | crates/h2-mvstore/src/file_store.rs:64-78 | Writing and syncing shadow and primary slot in turn is a legal run of the state machine from every consistent state |
| `FileStore.HeaderRoundTrip` | crates/h2-mvstore/src/file_store.rs:23-61 | A header record decodes to the header it was written from |
| `KnownBytes.StoreHeader` | crates/h2-mvstore/src/file_store.rs:23-36 | Where magic, version, offset, length and checksum stand in a header record |
| `FileStore.ReadCheckpointChain` | crates/h2-mvstore/src/file_store.rs:229-265 | The walk terminates on every file, returns the linked blocks oldest first, and reports corruption if and only if the references leave the file, miss a block or go round in a circle |
| `FileStore.TornResolved` | crates/h2-mvstore/src/file_store.rs:64-78 | A header record torn at any byte decodes to nothing, to the old header or to the new one; cuts up to the magic, one byte into the version, or inside the checksum need no assumption |
| `FileStore.SwitchIsAtomic` | crates/h2-mvstore/src/file_store.rs:64-78 | A crash anywhere in a checkpoint append, torn records included, makes open find the old header or the new one, never fail, and the chain it names is intact: the old one, or the old one and the new block |
| `FileStore.TornTwice` | crates/h2-mvstore/src/file_store.rs:115-129 | With an undecodable torn shadow record, open finds again the header it found before if and only if the primary record decodes to it: a stale primary gives an older header, an undecodable one nothing |
| `HeaderTears.DoubleCrash` | crates/h2-mvstore/src/file_store.rs:64-78 | From every settled file and for any two appends there are cuts such that a crash in the primary record, an open by the shadow record, and a crash in the next shadow record leave nothing to open |
| `HeaderTears.StaleFallback` | crates/h2-mvstore/src/file_store.rs:64-78 | A crash between the two records and one inside the next shadow record take the file back to the older header, neither the one open had settled on nor the new one |
| `HeaderTears.NewFileLost` | crates/h2-mvstore/src/file_store.rs:104-129 | The same two crashes on a new file, both records torn behind their fifth byte |
| `HeaderTears.FirstCheckpointAtomic` | crates/h2-mvstore/src/file_store.rs:64-78 | For the first checkpoint of a new file with a block of 100 bytes, atomicity holds without any assumption on torn records |
| `HeaderTears.FirstTearsDetected` | crates/h2-mvstore/src/file_store.rs:38-61 | Its torn records, over the empty header and over the zeros of the unused slot, have checksums that give them away at every cut |
| `FileStore.Store.AppendAndCommit` | crates/h2-mvstore/src/file_store.rs:174-202 | Appends a full chunk and completes the header switch to it |
| `FileStore.Store.AppendDeltaAndCommit` | crates/h2-mvstore/src/file_store.rs:204-226 | Appends a delta linked to the current block and completes the header switch |
| `WalFrames.WalManager.AppendUnsynced` | crates/h2-mvstore/src/wal.rs:77-106 | Appends one frame: length, checksum, payload |
| `WalFrames.WalManager.ReadAllRecords` | crates/h2-mvstore/src/wal.rs:130-185 | Returns the records of the intact frames and cuts the file after the last of them |
| `WalFrames.TornTail` | crates/h2-mvstore/src/wal.rs:130-185 | Records followed by any strict prefix of a further frame are read as exactly those records and the file is cut to their length, without any property of the checksum |
| `WalFrames.TornTailRecovers` | crates/h2-mvstore/src/wal.rs:130-185 | Reading again changes nothing, and later appends are read back after the surviving records |
| `WalFrames.AnyCut` | crates/h2-mvstore/src/wal.rs:130-185 | Any byte prefix of a log is read as the longest prefix of its records whose frames survive whole |
| `Damage.FrameExactly` | crates/h2-mvstore/src/wal.rs:138-168 | A record is read at a place exactly when the length, checksum and bytes of a payload that decodes to it stand there |
| `Damage.DamagedRecordEndsLog` | crates/h2-mvstore/src/wal.rs:138-185 | With one byte changed behind the length of a record, the log is read up to that record and cut there, whatever follows |
| `KnownBytes.CheckValue` | crates/h2-mvstore/src/wal.rs:84-88 | The checksum is the standard one: the digits 1 to 9 give CBF43926 |
| `KnownBytes.LogFrame` | crates/h2-mvstore/src/wal.rs:77-106 | The bytes of a frame: length and checksum in four bytes each, lowest first, then the payload |
| `Archive.WalArchiver.ArchiveRecord` | crates/h2-mvstore/src/wal.rs:291-344 | The archive grows by exactly this record: in a new segment if none is being written or the current one would exceed the limit, else at the end of the current one; no segment of several records exceeds the limit |
| `Archive.ReadArchiveRecords` | crates/h2-mvstore/src/wal.rs:354-426 | Reading every segment gives the archived records newer than a version, stably sorted by version |
| `Archive.SortSorts` | crates/h2-mvstore/src/wal.rs:424-424 | The sort puts records in version order, keeps every record, and keeps those of one version in their order |
| `Archive.SortRestores` | crates/h2-mvstore/src/wal.rs:354-426 | The records of a history, archived in whatever order, are sorted back into that history |
| `Archive.RestoreToVersion` | crates/h2-mvstore/src/store.rs:837-902 | From a backup at b and every later record the store becomes the history up to v; the report counts the records replayed and their last version |
| `PointInTime.RestoreFromFiles` | crates/h2-mvstore/src/store.rs:837-902 | From the bytes of a backup file and of the archive segments, in any order over any rotation, an empty store becomes the primary after its last commit not newer than v; a file that is no backup restores nothing |
| `PointInTime.LoadBackup` | crates/h2-mvstore/src/store.rs:848-855 | Opening, clearing and filling each map, in any order, gives the store that was listed |
| `Checksum.CrcStreams` | crates/h2-mvstore/src/backup.rs:225-330 | Feeding a checksum piece by piece or in one buffer gives the same value |
| `Checksum.OneByteDetected` | crates/h2-mvstore/src/file_store.rs:30-50 | Messages that differ in a single byte have different checksums, whatever surrounds it: no state of the register is ever confused with another |
| `Encoding.LeRoundTrip` | crates/h2-mvstore/src/backup.rs:39-148 | Fixed-width little-endian numbers are read back |
| `Backup.WriteBackup` | crates/h2-mvstore/src/backup.rs:39-168 | The nested loops with their running checksums write exactly the backup format |
| `Backup.ReadBackup` | crates/h2-mvstore/src/backup.rs:185-375 | Accepts a file if and only if it is a backup: checked header, as many sections as announced, each with its checksum, and a trailer with their length, checksum and count; and returns its information and maps |
| `Backup.WrittenIsBackup` | crates/h2-mvstore/src/backup.rs:39-168 | What the writer writes is such a backup, whatever follows it |
| `Damage.DamagedBackup` | crates/h2-mvstore/src/backup.rs:185-375 | One changed byte in the header of a backup is always noticed; one in its sections is noticed unless the file then passes for sections of another total length |
| `KnownBytes.BackupHeader` | crates/h2-mvstore/src/backup.rs:62-88 | Where each field of a backup header stands, and what fills the rest |
| `KnownBytes.BackupSection` | crates/h2-mvstore/src/backup.rs:101-137 | The bytes of a section with its name, count and entries |
| `KnownBytes.BackupTrailer` | crates/h2-mvstore/src/backup.rs:142-153 | The bytes of a trailer |
| `KnownBytes.BackupOutline` | crates/h2-mvstore/src/backup.rs:185-375 | What every accepted file has where: magic, format, number of maps, checksums, sections, trailer magic |
| `Backup.BackupRoundTrip` | crates/h2-mvstore/src/backup.rs:39-375 | Writing maps in any order of their names and reading them back gives the same maps and information, the buffered and the streamed checksums agreeing |
| `Replication.RunKeeps` | crates/h2/src/replication.rs:452-605 | Every step of primary, connection handler and standby keeps: what was delivered, is on the wire and in the channel is what was sent, in order, and no acknowledgement is ahead of what was applied |
| `Replication.StandbyCatchesUp` | crates/h2/src/replication.rs:457-500 | Once the standby has applied a record not older than its snapshot, its maps are the primary's after exactly the commits up to it, although records between subscription and snapshot are applied twice |
| `Replication.AcknowledgedMeansApplied` | crates/h2/src/replication.rs:158-220 | A commit sent to a connected standby is released by its acknowledgement only after the standby applied that very commit and everything sent before it; if the snapshot is not newer, the standby's maps are then the primary's after exactly the commits up to it |
| `ReplicationAnswers.SuccessMeansApplied` | crates/h2/src/replication.rs:170-220 | In every reachable state each commit handed to the hub but the one waited for has its answer: one that changed something while a standby was connected succeeded only if that standby received and applied it, every other one succeeded |
| `ReplicationAnswers.SuccessIsOnStandby` | crates/h2/src/replication.rs:170-220 | No commit that succeeded while a standby was connected is missing on the standby once it has caught up with its snapshot: its maps are the primary's after a stretch of the log that includes the commit |
| `ReplicationAnswers.AnswersAtOnce` | crates/h2/src/replication.rs:171-213 | A commit is answered at once, with success, exactly if it changes nothing or no standby is connected; otherwise its answer is open and cannot come before an acknowledgement |
| `ReplicationAnswers.SuccessPossibleIff` | crates/h2/src/replication.rs:195-212 | A waiting commit can still succeed if and only if it was sent after the subscription and no record overtook the snapshot; otherwise only the timeout ends the wait |
| `ReplicationAnswers.SuccessReachable` | crates/h2/src/replication.rs:170-213 | For every first commit that changes something there is a run in which it waits and is then released |
| `Replication.ReplayNonEmpty` | crates/h2/src/replication.rs:170-176 | Leaving out commits without changes does not alter the standby's state |
| `GraphStore.ScanAdjKey` | crates/h2-graph/src/store.rs:352-375 | The scan for the terminator decodes a key as specified |
| `GraphStore.AdjKeyRoundTrip` | crates/h2-graph/src/store.rs:335-375 | An adjacency key decodes to the end, type and edge it was made from, for types without a zero byte |
| `GraphStore.OtherKeys` | crates/h2-graph/src/store.rs:335-375 | A key without a type decodes to its end and edge, and a bare prefix to nothing |
| `GraphStore.PrefixMeansEdge` | crates/h2-graph/src/store.rs:294-333 | An adjacency key has the prefix of a query if and only if its edge has that end and type |
| `GraphStore.SaveEdgeKeepsIff` | crates/h2-graph/src/store.rs:242-255 | Saving an edge keeps nodes, edges and adjacency consistent if and only if both ends exist and an edge already stored under its id has the same ends and type |
| `GraphCases.MovedEdgeListed` | crates/h2-graph/src/store.rs:242-255 | An edge saved again with another destination is still listed at its former one, in every consistent store |
| `GraphCases.MovedEdge` | crates/h2-graph/src/store.rs:242-255 | Concretely: in a store reached by four operations, an edge from node 1 to node 2 saved with destination 3 is listed among those entering node 2 |
| `GraphStore.DeleteEdgeKeeps` | crates/h2-graph/src/store.rs:268-281 | Deleting an edge removes it and exactly its two adjacency keys |
| `GraphStore.DetachDeleteKeeps` | crates/h2-graph/src/store.rs:133-164 | Deleting a node with its edges, self-loops included, removes exactly the edges at that node and leaves no dangling one |
| `GraphStore.EdgesAtExact` | crates/h2-graph/src/store.rs:294-333 | The edges listed at a node are exactly the stored edges with that end and type, each once |
| `GraphStore.AdjacencyExact` | crates/h2-graph/src/store.rs:133-375 | The same in every state reached by creating, saving and deleting nodes and edges, and no stored edge lacks an end |
| `GraphEffects.StepEffect` | crates/h2-graph/src/store.rs:89-281 | What each operation leaves under every id: the labels, properties and ends it was given, under an id no other had when created, nothing else changed, and nothing at all when refused; deleting a node takes exactly its edges along |
| `GraphEffects.NodeStays` | crates/h2-graph/src/store.rs:89-164 | What is stored for a node is found until an operation names it |
| `GraphEffects.FarEndsHeld` | crates/h2-graph/src/store.rs:242-281 | In every reached store the adjacency entries of an edge hold its other end |
| `KnownBytes.AdjacencyKeys` | crates/h2-graph/src/store.rs:335-350 | The bytes of every form of adjacency key |
| `GraphStore.Store.GetEdges` | crates/h2-graph/src/store.rs:294-333 | The prefix scan with decoding and fetching lists exactly those edges |
| `GraphStore.Store.DeleteNodeById` | crates/h2-graph/src/store.rs:133-164 | Refuses a node with edges unless detaching; after a deletion exactly the edges elsewhere remain |
| `GraphPattern.MatchingEdgesExact` | crates/h2-graph/src/engine.rs:564-612 | The edges matched at a node are exactly the stored ones in the pattern's direction that pass type and property tests, each once; a pattern with several types only ever matches its first |
| `GraphPattern.MatchedExactly` | crates/h2-graph/src/engine.rs:564-612 | An edge is matched exactly if it is stored, leaves or enters the node as the direction says, has the first type, passes the comparison with one of several types, and passes the properties |
| `GraphPattern.HopMeans` | crates/h2-graph/src/engine.rs:440-448 | A step of a search leads from one end of a matching edge to its other end, in the pattern's direction, and to a stored node |
| `GraphPattern.WalkMeans` | crates/h2-graph/src/engine.rs:440-448 | Walks of the searches are exactly the sequences of such edges, each starting where the one before ended |
| `PatternTypes.SeveralTypesExactly` | crates/h2-graph/src/engine.rs:570-594 | A pattern with several types matches in every consistent store just the edges of any of its types if and only if its types and properties let through edges of the first type only |
| `PatternTypes.PlainTypesExactly` | crates/h2-graph/src/engine.rs:586-594 | With the program's comparison and no property filter that is so if and only if all types are the same and that type has no letter |
| `PatternTypes.SecondTypeMissed` | crates/h2-graph/src/engine.rs:570-584 | Concretely: with an edge of type B in a store reached by four operations, the pattern A or B does not find it |
| `ShortestPath.ExpandShortestPath` | crates/h2-graph/src/engine.rs:492-562 | Terminates, and returns a path whose edges join node to node in the pattern's direction up to a matching node other than the start, with the fewest edges of any such path, or nothing exactly if there is no such node |
| `ShortestPath.ShortestMeans` | crates/h2-graph/src/engine.rs:492-562 | The answer in terms of edge ends alone |
| `VarLength.ExpandItem` | crates/h2-graph/src/engine.rs:434-486 | One item of the queue contributes exactly its unused, existing extensions, in edge order |
| `VarLength.ExpandVarLength` | crates/h2-graph/src/engine.rs:411-490 | The queue loop terminates and returns precisely the extensions by max(1, min) to max distinct unused edges, each joining the node before to the node after in the pattern's direction, that end at a matching node: every one, each once, shorter ones first |
| `VarLength.LevelExact` | crates/h2-graph/src/engine.rs:429-487 | After h rounds of extension the items are exactly the trails of h edges |
| `VarLength.ReachesMeans` | crates/h2-graph/src/engine.rs:429-487 | The items of a level in terms of edge ends alone |
| `VarLength.AnswersExact` | crates/h2-graph/src/engine.rs:411-490 | The enumeration by levels is exact in terms of edge ends, without duplicates and in order of length |
| `PackStream.Push` | crates/h2-bolt/src/packstream.rs:213-336 | The recursive encoders append exactly the encoding to the buffer |
| `PackStream.Read` | crates/h2-bolt/src/packstream.rs:339-601 | The recursive decoders with their moving offsets compute the decoding, errors included |
| `PackStream.Decode` | crates/h2-bolt/src/packstream.rs:339-530 | On every buffer, decoding consumes at least one byte and never past the end; which bytes give which value is `PackStreamGrammar.DecodeExactly` |
| `PackStream.RoundTrip` | crates/h2-bolt/src/packstream.rs:213-601 | A representable value, in any order of its maps, decodes to itself and consumes exactly its bytes, whatever follows |
| `PackStreamLaws.DecodedRepresentable` | crates/h2-bolt/src/packstream.rs:339-601 | No buffer decodes to a byte array, to a structure of 65536 fields or more, or to a size of 2^32 or more |
| `PackStreamLaws.RoundTripExactly` | crates/h2-bolt/src/packstream.rs:213-601 | A value survives encoding and decoding if and only if it is representable |
| `PackStreamGrammar.DecodeExactly` | crates/h2-bolt/src/packstream.rs:339-601 | The decoder reads a value exactly when the bytes it consumes stand for that value in a grammar of its own, every width of sizes and integers included |
| `PackStreamGrammar.OneMeaning` | crates/h2-bolt/src/packstream.rs:339-601 | No bytes stand for two values, and no value's bytes begin another's |
| `PackStreamGrammar.EncodedDenotes` | crates/h2-bolt/src/packstream.rs:213-336 | What is written for a representable value stands for it in that grammar |
| `PackStreamLaws.StringsExactly` | crates/h2-bolt/src/packstream.rs:532-543 | Behind a string header of its size, bytes are read as a string, and as themselves, if and only if they are the encoding of some sequence of Unicode scalar values |
| `Utf8Chars.ValidExactly` | crates/h2-bolt/src/packstream.rs:538-542 | A byte string is valid UTF-8 if and only if it is the concatenation of the encodings, given by arithmetic, of some scalar values |
| `Utf8Chars.OneReading` | crates/h2-bolt/src/packstream.rs:538-542 | No byte string encodes two sequences of scalar values |
| `KnownBytes.PackTwo` | crates/h2-bolt/src/packstream.rs:231-247 | Two-byte integers at both ends of their range, byte for byte |
| `KnownBytes.PackEight` | crates/h2-bolt/src/packstream.rs:231-247 | Eight-byte integers at both ends, byte for byte |
| `KnownBytes.PackSizes` | crates/h2-bolt/src/packstream.rs:249-336 | The marker and size before every string, list, map and structure of any size |
| `KnownBytes.PackNested` | crates/h2-bolt/src/packstream.rs:300-336 | A structure holding a map and a list, byte for byte |
| `PackStreamLaws.BytesRejected` | crates/h2-bolt/src/packstream.rs:266-279 | A byte array is encoded but never decoded |
| `PackStreamLaws.DecodeStable` | crates/h2-bolt/src/packstream.rs:339-601 | Bytes behind a decoded value do not matter |
| `PackStreamLaws.CutShortRefused` | crates/h2-bolt/src/packstream.rs:339-601 | Every strict prefix of an encoding is refused, never taken for another value |
| `PackStreamLaws.OrderIrrelevant` | crates/h2-bolt/src/packstream.rs:300-318 | The order in which a map's entries are written does not change what is read |
| `PackStreamLaws.Listable` | crates/h2-bolt/src/packstream.rs:300-318 | Every value has an order of its maps in which it can be written |
| `BoltFraming.WriteMessage` | crates/h2-bolt/src/session.rs:139-160 | The chunking loop appends the framed encoding |
| `BoltFraming.ReadMessage` | crates/h2-bolt/src/session.rs:113-137 | The reading loop returns the message and what is left, a closed stream, or an error inside a chunk |
| `BoltFraming.FramedRead` | crates/h2-bolt/src/session.rs:113-160 | A payload of any size is read back whole and what follows it stays on the stream |
| `KnownBytes.BoltChunks` | crates/h2-bolt/src/session.rs:139-160 | A message of up to 65535 bytes is one chunk and the end marker; a longer one starts with a full chunk |
| `BoltFraming.SentIsReceived` | crates/h2-bolt/src/session.rs:113-160 | A value written as a message is the value read and decoded |
| `BoltFraming.SessionRoundTrip` | crates/h2-bolt/src/session.rs:113-160 | All values written in a session arrive, in order, and nothing else |
| `BoltFraming.CutShortDeliversNothing` | crates/h2-bolt/src/session.rs:113-137 | A stream that breaks off inside a message delivers no message |
| `RowCodec.WriteRow` | crates/h2-sql/src/row.rs:39-47 | The loop over the columns writes the row format |
| `RowCodec.ReadRow` | crates/h2-sql/src/row.rs:49-71 | The loop with its moving offset computes the decoding or its failure |
| `RowCodec.ValueRoundTrip` | crates/h2-sql/src/row.rs:74-275 | A storable value, nested arrays included, decodes to itself and consumes exactly its bytes, whatever follows |
| `RowCodec.RowRoundTrip` | crates/h2-sql/src/row.rs:39-71 | A row is read back from its bytes if and only if it is storable: sizes below 2^32 and library values that are accepted again |
| `RowCodec.DecodedStorable` | crates/h2-sql/src/row.rs:163-275 | Whatever bytes decode to could have been stored |
| `RowGrammar.DecodeExactly` | crates/h2-sql/src/row.rs:163-275 | The decoder reads a value exactly when the bytes it consumes stand for it in a grammar of its own: any non-zero byte is true, decimals and documents are normalised, dates and times checked |
| `RowGrammar.RowExactly` | crates/h2-sql/src/row.rs:49-71 | A row is read from bytes if and only if some beginning of them is the magic byte, a count and that many values |
| `RowGrammar.EncodedDenotes` | crates/h2-sql/src/row.rs:74-161 | What is written for a storable value stands for it in that grammar |
| `KnownBytes.RowStart` | crates/h2-sql/src/row.rs:39-47 | Rows start with AA and their column count, lowest byte first, then list their columns |
| `KnownBytes.RowIntegers` | crates/h2-sql/src/row.rs:81-96 | Integers behind their tag in two's complement, lowest byte first |
| `KnownBytes.RowCounted` | crates/h2-sql/src/row.rs:109-146 | Strings, byte arrays and documents behind tag and length |
| `RowScan.ScanColumn` | crates/h2-sql/src/row.rs:278-348 | The skipping loop computes the column scan |
| `RowScan.ExtractAgrees` | crates/h2-sql/src/row.rs:278-348 | Behind skippable columns the scan gives what decoding and indexing gives: the integer of an integer column, none for null or a column that is not there |
| `RowScan.ValueField` | crates/h2-sql/src/row.rs:291-338 | A value's size is computed correctly if and only if it is skippable: no array, no interval, and an identifier only if its first four bytes read as 12 |
| `RowScan.BlockedByArray` | crates/h2-sql/src/row.rs:337-337 | An array or interval before the target makes the scan return none |
| `RowScan.MisledByUuid` | crates/h2-sql/src/row.rs:328-332 | Any identifier that is not skippable sends the scan to a place that is not the next column's, in every row |
| `RowScan.ThrownOffByUuid` | crates/h2-sql/src/row.rs:328-332 | Behind an identifier of zeros the scan misses every integer |
| `RowScan.RightByAccident` | crates/h2-sql/src/row.rs:328-332 | Behind another identifier it comes upon the right integer by accident, so no condition on the earlier columns alone is exact |
| `ClockReplacer.Replacer.Victim` | crates/h2-mvstore/src/buffer_pool/clock_replacer.rs:29-51 | Within two turns: none if and only if no frame is evictable, otherwise the first evictable frame with a clear bit, or the first evictable one if all bits are set; only that frame leaves, and only passed bits are cleared |
| `ClockReplacer.Replacer.Size` | crates/h2-mvstore/src/buffer_pool/clock_replacer.rs:69-71 | Counts the evictable frames |
| `ClockReplacer.SweepDetermined` | crates/h2-mvstore/src/buffer_pool/clock_replacer.rs:29-51 | These conditions determine the victim and the state after it |
| `ClockReplacer.SweepCount` | crates/h2-mvstore/src/buffer_pool/clock_replacer.rs:29-51 | A sweep succeeds exactly if there is an evictable frame, and removes just one |
| `ClockReplacer.MembersAreIdle` | crates/h2-mvstore/src/buffer_pool/clock_replacer.rs:29-67 | In every run the evictable frames are exactly those unpinned and neither pinned nor evicted since |
| `ClockReplacer.EvictsOnlyIdle` | crates/h2-mvstore/src/buffer_pool/clock_replacer.rs:29-67 | No run evicts a frame pinned since its last unpin, and a sweep comes back empty only if no frame is idle |
| `ClockReplacer.BitsAreRecent` | crates/h2-mvstore/src/buffer_pool/clock_replacer.rs:29-67 | In every run the reference bits are set exactly for the frames unpinned and since then neither pinned nor evicted nor passed by the hand |
| `ClockReplacer.SecondChance` | crates/h2-mvstore/src/buffer_pool/clock_replacer.rs:29-51 | Every run evicts the idle frame nearest to the hand among those not unpinned since the hand passed them, and one of the others only if there is none |
| `ClockReplacer.RecentSpared` | crates/h2-mvstore/src/buffer_pool/clock_replacer.rs:29-67 | A frame unpinned since the hand last passed it is spared while another idle frame was not |

## Left out

- The poisoned state of the commit queue, reached when rolling the log back fails too: runs stop before it.
- DurabilityRuns.CrashRecovery: assumes syncs are on, header-slot writes atomic, and maps changed only by commits; an absent map counts as empty. Torn slots are treated separately in `FileStore.SwitchIsAtomic`.
- DurabilityRuns.StepKeeps: each operation on a map is one atomic step, although `put` raises `mod_count` before it writes the tree and `get_serialized_root` reads the counter without the journal lock.
- DurableStore.MVStore.Checkpoint: file operations succeed or fail as a parameter says; a chunk is one append. Waiting, spinning and the condition variable are not modelled; committers and the leader interleave as events.
- FileStore.SwitchIsAtomic: assumes, only for cuts inside the body that a 32-bit checksum cannot settle, that the mixture of two header records does not decode to a third header; `HeaderTears.FirstTearsDetected` shows a case in which nothing is left to assume. A block is found only under the length it was written with, and full chunks are told from deltas by a tag instead of the bytes `H2D1`.
- WalFrames.TornTail: bincode is a parameter with a known inverse whose encodings fit in 32 bits of length.
- PointInTime.RestoreFromFiles: targets by timestamp or transaction, and the commit at the end, are not modelled; names go through a parameter for UTF-8.
- Replication.StandbyCatchesUp: one standby, a channel that does not lag, an atomically read snapshot; reconnection, the `is_clear` change and sockets are not modelled.
- GraphStore.AdjacencyExact: edge types have no zero byte, and edge ids are allocated before an edge is saved; label and property indexes, transactions and value decoding are left out.
- ShortestPath.ExpandShortestPath: whether a node matches a pattern is a predicate that does not fail; variable bindings of results are left out, here and in `VarLength.ExpandVarLength`.
- RowCodec.RowRoundTrip: decimals, dates, times and JSON are carried as their stored bytes or numbers, with the libraries as parameters that accept their own output; a JSON text stays below 2^32 bytes.
- RowScan.ExtractAgrees: the second, floating-point component of the result is left out; conversion of floats to integers is a parameter.
- Backup.ReadBackup: the information returned leaves out sizes and the identifier derived from the header.
- Compaction, rewriting by rename, `apply_snapshot`, `set_version` and other ways around the log.
- Transactions, SQL and Cypher evaluation, servers, authentication, metrics, caches and queues.
- Conversion between graph values and PackStream values, the Bolt handshake and message handling.
