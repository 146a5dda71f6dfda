/** What every run of the durable store keeps, and what recovery therefore rebuilds. */
module DurabilityProof {
  import opened Bytes
  import opened SortedEntries
  import opened ChangeLog
  import opened MapJournal
  import opened Checkpoints
  import opened Durability

  // ---------------------------------------------------------------- the invariant

  /** The durable part of the log is the last stretch of the durable history. */
  ghost predicate LogInv(d: Disk, durable: seq<Commit>) {
    d.synced <= |d.wal| && d.synced <= |durable| && durable[|durable| - d.synced..] == d.wal[..d.synced]
  }

  ghost predicate Loads(d: Disk, h: Header) {
    (h.last.Some? ==> h.last.value < |d.chunks|) && Rebuild(d.chunks, h.last).Some?
  }

  ghost function Image(d: Disk, h: Header): Db
    requires Loads(d, h)
  {
    Rebuild(d.chunks, h.last).value
  }

  /** Replaying the durable log over the header's image gives the durable history's store. */
  ghost predicate GoodHeader(d: Disk, durable: seq<Commit>, h: Header) {
    Loads(d, h) && d.synced <= |d.wal| && Same(Replay(Image(d, h), Records(d.wal[..d.synced])), Fold(durable))
  }

  /** The header's image is itself the durable history's store. */
  ghost predicate FreshHeader(d: Disk, durable: seq<Commit>, h: Header) {
    Loads(d, h) && Same(Image(d, h), Fold(durable))
  }

  ghost predicate SlotInv(d: Disk, durable: seq<Commit>) {
    && d.primary != {} && d.shadow != {}
    && (forall s :: s in d.primary ==> s.Good? && GoodHeader(d, durable, s.header))
    && (forall s :: s in d.shadow ==> s.Good? ==> GoodHeader(d, durable, s.header))
  }

  /** Journals of checkpointed maps lead from the image to the live maps, and none of them is missing. */
  ghost predicate JournalInv(live: Live, image: Db) {
    forall n :: n in image ==> n in live && live[n].journal.enabled && Tracks(image[n], live[n])
  }

  /**
   * Group commit, whenever the queue is unlocked: the log ends with the pending batch, a leader is
   * set exactly when there is one, and the batch start is the boundary.
   */
  ghost predicate QueueInv(d: Disk, q: Queue) {
    && d.synced <= |d.wal| && q.pending == d.wal[d.synced..]
    && (q.leader <==> q.pending != [])
    && (q.pending != [] ==> q.batchStart == Some(d.synced))
  }

  ghost predicate VersionInv(d: Disk, m: Memory) {
    && StrictVersions(d.wal)
    && (forall c :: c in d.wal ==> c.record.version <= m.nextVersion)
    && m.version <= m.nextVersion
  }

  ghost predicate PhaseInv(d: Disk, durable: seq<Commit>, m: Memory)
    requires Loads(d, m.header)
  {
    match m.phase
    case Idle => JournalInv(m.live, Image(d, m.header))
    case Switched =>
      && !m.queue.leader && JournalInv(m.live, Image(d, m.header))
      && d.primary == {Good(m.header)} && d.shadow == {Good(m.header)} && FreshHeader(d, durable, m.header)
    case _ =>
      && !m.queue.leader && m.live == DrainAll(m.phase.before)
      && JournalInv(m.phase.before, Image(d, m.header))
      && FreshHeader(d, durable, m.phase.header)
      && Image(d, m.phase.header) == ContentsOf(m.phase.before)
      && m.phase.header.last.Some?
      && ((m.phase.ShadowSynced? || m.phase.PrimaryWritten?) ==> d.shadow == {Good(m.phase.header)})
  }

  ghost predicate MemoryInv(d: Disk, durable: seq<Commit>, m: Memory) {
    && GoodHeader(d, durable, m.header)
    && m.checkpointed == Image(d, m.header).Keys
    && (m.hasCheckpoint <==> m.header.last.Some?)
    && Same(ContentsOf(m.live), Fold(durable))
    && QueueInv(d, m.queue) && VersionInv(d, m) && PhaseInv(d, durable, m)
  }

  ghost predicate Inv(w: World) {
    && LogInv(w.disk, w.durable) && SlotInv(w.disk, w.durable)
    && (w.memory.None? ==> w.disk.synced == |w.disk.wal| && StrictVersions(w.disk.wal))
    && (w.memory.Some? ==> MemoryInv(w.disk, w.durable, w.memory.value))
  }

  ghost predicate StrictVersions(wal: seq<Commit>) {
    forall i, j :: 0 <= i < j < |wal| ==> wal[i].record.version < wal[j].record.version
  }

  // ---------------------------------------------------------------- folding and live maps

  lemma RecordsConcat(a: seq<Commit>, b: seq<Commit>)
    ensures Records(a + b) == Records(a) + Records(b)
  {
  }

  lemma FoldConcat(a: seq<Commit>, b: seq<Commit>)
    ensures Fold(a + b) == Replay(Fold(a), Records(b))
  {
    RecordsConcat(a, b);
    ReplayConcat(map[], Records(a), Records(b));
  }

  lemma ApplyLiveContents(live: Live, c: Change, journaling: bool)
    ensures ContentsOf(ApplyLive(live, c, journaling)) == Apply(ContentsOf(live), c)
  {
  }

  /** Changing the live maps changes their contents as replay does. */
  lemma {:induction false} LiveContents(live: Live, cs: seq<Change>, journaling: bool)
    ensures ContentsOf(ApplyAllLive(live, cs, journaling)) == ApplyAll(ContentsOf(live), cs)
  {
    if cs != [] {
      var front := cs[..|cs| - 1];
      LiveContents(live, front, journaling);
      ApplyLiveContents(ApplyAllLive(live, front, journaling), cs[|cs| - 1], journaling);
    }
  }

  /** Changing the live maps keeps their journals exact. */
  lemma {:induction false} LiveJournals(live: Live, image: Db, cs: seq<Change>, journaling: bool)
    requires JournalInv(live, image)
    ensures JournalInv(ApplyAllLive(live, cs, journaling), image)
  {
    hide ApplyJournal;
    if cs != [] {
      var front, c := cs[..|cs| - 1], cs[|cs| - 1];
      LiveJournals(live, image, front, journaling);
      var mid := ApplyAllLive(live, front, journaling);
      if c.name in image {
        MutationsTrack(image[c.name], mid[c.name], c.key, c.value);
      }
    }
  }

  lemma LoadedMaps(image: Db)
    ensures ContentsOf(LoadMaps(image)) == image
    ensures JournalInv(LoadMaps(image), image)
  {
    hide ApplyJournal;
    forall n | n in image ensures Tracks(image[n], LoadMaps(image)[n]) {
      EmptyKeeps(image[n], true);
    }
  }

  // ---------------------------------------------------------------- headers

  /** A header whose image is the whole durable history stays right under any replay of its last stretch. */
  lemma FreshIsGood(d: Disk, durable: seq<Commit>, h: Header)
    requires LogInv(d, durable) && FreshHeader(d, durable, h)
    ensures GoodHeader(d, durable, h)
  {
    hide Rebuild, Replay, Records;
    var rs, i := Records(durable), |durable| - d.synced;
    var tail := Records(d.wal[..d.synced]);
    assert durable == durable[..i] + d.wal[..d.synced];
    RecordsConcat(durable[..i], d.wal[..d.synced]);
    assert rs[i..] == tail && rs[..|rs|] == rs;
    ReplayFromEarlier(map[], rs, i, |rs|);
    ReplaySame(Image(d, h), Fold(durable), tail);
  }

  lemma GoodLoads(d: Disk, durable: seq<Commit>, h: Header)
    requires GoodHeader(d, durable, h)
    ensures Loads(d, h)
  {
  }

  /** When the durable log grows by a batch, so does the durable history, and every header stays good. */
  lemma GoodGrows(d: Disk, e: Disk, durable: seq<Commit>, batch: seq<Commit>, h: Header)
    requires GoodHeader(d, durable, h)
    requires e.chunks == d.chunks && e.synced <= |e.wal|
    requires e.wal[..e.synced] == d.wal[..d.synced] + batch
    ensures GoodHeader(e, durable + batch, h)
  {
    hide Rebuild, Replay, Records, Fold;
    var image := Image(d, h);
    var log := Records(d.wal[..d.synced]);
    RecordsConcat(d.wal[..d.synced], batch);
    ReplayConcat(image, log, Records(batch));
    FoldConcat(durable, batch);
    ReplaySame(Replay(image, log), Fold(durable), Records(batch));
  }

  lemma LogGrows(d: Disk, e: Disk, durable: seq<Commit>, batch: seq<Commit>)
    requires LogInv(d, durable)
    requires e.synced == d.synced + |batch| <= |e.wal|
    requires e.wal[..e.synced] == d.wal[..d.synced] + batch
    ensures LogInv(e, durable + batch)
  {
    var all := durable + batch;
    assert all[|all| - e.synced..] == durable[|durable| - d.synced..] + batch;
  }

  /** Appending a chunk leaves every header's image as it was. */
  lemma LoadsStable(d: Disk, e: Disk, chunk: Chunk, h: Header)
    requires Loads(d, h) && e.chunks == d.chunks + [chunk]
    ensures Loads(e, h) && Image(e, h) == Image(d, h)
  {
    hide Rebuild;
    RebuildStable(d.chunks, [chunk], h.last);
  }

  /** Extending the durable log and history by the same batch keeps what the disk promises. */
  lemma DiskGrows(d: Disk, e: Disk, durable: seq<Commit>, batch: seq<Commit>)
    requires LogInv(d, durable) && SlotInv(d, durable)
    requires e.chunks == d.chunks && e.primary != {} && e.primary <= d.primary && e.shadow != {} && e.shadow <= d.shadow
    requires e.synced == d.synced + |batch| <= |e.wal|
    requires e.wal[..e.synced] == d.wal[..d.synced] + batch
    ensures LogInv(e, durable + batch) && SlotInv(e, durable + batch)
  {
    hide GoodHeader, LogInv;
    LogGrows(d, e, durable, batch);
    forall s | s in e.primary ensures s.Good? && GoodHeader(e, durable + batch, s.header) {
      assert LogInv(d, durable);
      GoodGrows(d, e, durable, batch, s.header);
    }
    forall s | s in e.shadow && s.Good? ensures GoodHeader(e, durable + batch, s.header) {
      GoodGrows(d, e, durable, batch, s.header);
    }
  }

  // ---------------------------------------------------------------- commits

  lemma EnqueueKeeps(w: World, txId: nat, changes: seq<Change>, timestamp: int)
    requires Inv(w) && Enabled(w, Enqueue(txId, changes, timestamp))
    ensures Inv(After(w, Enqueue(txId, changes, timestamp)))
  {
    hide GoodHeader, Rebuild, Fold, Same, ContentsOf, JournalInv, StrictVersions;
    var r := After(w, Enqueue(txId, changes, timestamp));
    var d, e := w.disk, r.disk;
    assert e.wal[..e.synced] == d.wal[..d.synced] + [];
    assert w.durable + [] == w.durable;
    DiskGrows(d, e, w.durable, []);
    GoodGrows(d, e, w.durable, [], w.memory.value.header);
    assert e.wal[e.synced..] == d.wal[d.synced..] + [e.wal[|d.wal|]];
    NextVersion(d.wal, e.wal[|d.wal|], w.memory.value.nextVersion);
  }

  lemma NextVersion(wal: seq<Commit>, c: Commit, v: nat)
    requires StrictVersions(wal) && c.record.version == v + 1 && forall x :: x in wal ==> x.record.version <= v
    ensures StrictVersions(wal + [c]) && forall x :: x in wal + [c] ==> x.record.version <= v + 1
  {
    var all := wal + [c];
    forall i, j | 0 <= i < j < |all| ensures all[i].record.version < all[j].record.version {
      assert all[i] in wal;
    }
  }

  lemma RejectKeeps(w: World, e: Event)
    requires Inv(w) && Enabled(w, e) && (e.PrepareFails? || e.AppendFails?)
    ensures Inv(After(w, e))
  {
    hide GoodHeader, Rebuild, Fold, Same, ContentsOf, JournalInv;
  }

  lemma FlushOkKeeps(w: World)
    requires Inv(w) && Enabled(w, FlushOk)
    ensures Inv(After(w, FlushOk))
  {
    hide GoodHeader, Rebuild, Fold, Same, ContentsOf, JournalInv, ApplyAllLive, FreshHeader;
    var r, m := After(w, FlushOk), w.memory.value;
    var d, e, batch := w.disk, r.disk, m.queue.pending;
    assert m.phase.Idle?;
    assert e.wal[..e.synced] == d.wal[..d.synced] + batch;
    DiskGrows(d, e, w.durable, batch);
    GoodGrows(d, e, w.durable, batch, m.header);
    var cs := Changes(Records(batch));
    GoodLoads(d, w.durable, m.header);
    LiveContents(m.live, cs, m.hasCheckpoint);
    LiveJournals(m.live, Image(d, m.header), cs, m.hasCheckpoint);
    FoldConcat(w.durable, batch);
    ReplaySame(ContentsOf(m.live), Fold(w.durable), Records(batch));
    assert batch[|batch| - 1] == d.wal[|d.wal| - 1] && d.wal[|d.wal| - 1] in d.wal;
    assert e.wal[e.synced..] == [];
  }

  /** A failed sync puts the log back to the batch boundary. */
  lemma FlushFailsKeeps(w: World)
    requires Inv(w) && Enabled(w, FlushFails)
    ensures Inv(After(w, FlushFails))
    ensures After(w, FlushFails).disk.wal == w.disk.wal[..w.disk.synced]
  {
    hide GoodHeader, Rebuild, Fold, Same, ContentsOf, JournalInv, FreshHeader;
    var r, m := After(w, FlushFails), w.memory.value;
    var d, e := w.disk, r.disk;
    assert m.phase.Idle?;
    assert e.wal[..e.synced] == d.wal[..d.synced] + [];
    assert w.durable + [] == w.durable;
    DiskGrows(d, e, w.durable, []);
    GoodGrows(d, e, w.durable, [], m.header);
    assert forall c :: c in e.wal ==> c in d.wal;
    assert e.wal[e.synced..] == [];
  }

  lemma OpenMapKeeps(w: World, n: Name)
    requires Inv(w) && Enabled(w, OpenMap(n))
    ensures Inv(After(w, OpenMap(n)))
  {
    hide GoodHeader, Rebuild, Fold;
    var r, m := After(w, OpenMap(n)), w.memory.value;
    if n !in m.live {
      var live := r.memory.value.live;
      forall x, k ensures At(ContentsOf(live), x, k) == At(ContentsOf(m.live), x, k) {
      }
      forall x, k ensures At(ContentsOf(live), x, k) == At(Fold(w.durable), x, k) {
        assert At(ContentsOf(m.live), x, k) == At(Fold(w.durable), x, k);
      }
    }
  }

  // ---------------------------------------------------------------- checkpoints

  /** The chunk a checkpoint appends, read back, is the live maps. */
  lemma ChunkIsLive(d: Disk, m: Memory)
    requires Loads(d, m.header) && m.checkpointed == Image(d, m.header).Keys
    requires m.hasCheckpoint <==> m.header.last.Some?
    requires JournalInv(m.live, Image(d, m.header))
    ensures var chunk := CheckpointChunk(m.live, m.checkpointed, !m.hasCheckpoint, m.version + 1, m.header.last);
            Rebuild(d.chunks + [chunk], Some(|d.chunks|)) == Some(ContentsOf(m.live))
  {
    hide Rebuild, CheckpointChunk, ApplyJournal;
    var image := Image(d, m.header);
    CheckpointRebuilds(d.chunks, m.header.last, image, m.live, !m.hasCheckpoint, m.version + 1);
    RebuiltExact(image, m.live);
  }

  lemma SlotsStable(d: Disk, e: Disk, chunk: Chunk, durable: seq<Commit>)
    requires SlotInv(d, durable)
    requires e == d.(chunks := d.chunks + [chunk])
    ensures SlotInv(e, durable)
  {
    hide Rebuild, Same, Replay, Records, Fold;
    forall s | s in d.primary + d.shadow && s.Good? ensures GoodHeader(e, durable, s.header) {
      LoadsStable(d, e, chunk, s.header);
    }
  }

  lemma AppendChunkKeeps(w: World)
    requires Inv(w) && Enabled(w, AppendChunk)
    ensures Inv(After(w, AppendChunk))
  {
    hide Rebuild, Same, Replay, Records, Fold, ContentsOf, CheckpointChunk, DrainAll, JournalInv;
    var r, m := After(w, AppendChunk), w.memory.value;
    var d, e := w.disk, r.disk;
    var chunk := e.chunks[|d.chunks|];
    ChunkIsLive(d, m);
    SlotsStable(d, e, chunk, w.durable);
    LoadsStable(d, e, chunk, m.header);
    DrainedContents(m.live);
  }

  lemma DrainedContents(live: Live)
    ensures ContentsOf(DrainAll(live)) == ContentsOf(live)
    ensures JournalInv(DrainAll(live), ContentsOf(live))
  {
    hide ApplyJournal;
    forall n | n in live ensures Tracks(live[n].contents, DrainAll(live)[n]) {
      EmptyKeeps(live[n].contents, true);
    }
  }

  /** Writing and syncing slots: every value a slot may hold is a good header. */
  lemma WriteShadowKeeps(w: World)
    requires Inv(w) && Enabled(w, WriteShadow)
    ensures Inv(After(w, WriteShadow))
  {
    hide Rebuild, Same, Replay, Records, Fold, ContentsOf, DrainAll, JournalInv;
    FreshIsGood(w.disk, w.durable, w.memory.value.phase.header);
  }

  lemma SyncShadowKeeps(w: World)
    requires Inv(w) && Enabled(w, SyncShadow)
    ensures Inv(After(w, SyncShadow))
  {
    hide Rebuild, Same, Replay, Records, Fold, ContentsOf, DrainAll, JournalInv;
    FreshIsGood(w.disk, w.durable, w.memory.value.phase.header);
  }

  lemma WritePrimaryKeeps(w: World)
    requires Inv(w) && Enabled(w, WritePrimary)
    ensures Inv(After(w, WritePrimary))
  {
    hide Rebuild, Same, Replay, Records, Fold, ContentsOf, DrainAll, JournalInv;
    FreshIsGood(w.disk, w.durable, w.memory.value.phase.header);
  }

  lemma SyncPrimaryKeeps(w: World)
    requires Inv(w) && Enabled(w, SyncPrimary)
    ensures Inv(After(w, SyncPrimary))
  {
    hide Rebuild, Same, Replay, Records, Fold, ContentsOf, DrainAll, JournalInv;
    var m := w.memory.value;
    FreshIsGood(w.disk, w.durable, m.phase.header);
    DrainedContents(m.phase.before);
    DrainedNames(m.phase.before);
  }

  lemma DrainedNames(live: Live)
    ensures DrainAll(live).Keys == live.Keys == ContentsOf(live).Keys
  {
  }

  lemma ClearWalKeeps(w: World, e: Event)
    requires Inv(w) && Enabled(w, e) && (e.ClearWal? || e.ClearWalFails?)
    ensures Inv(After(w, e))
  {
    hide Rebuild, Same, Replay, Fold, ContentsOf, DrainAll, JournalInv;
    var r, m := After(w, e), w.memory.value;
    if e.ClearWal? {
      assert r.disk.wal[..0] == [];
      ReplayNothing(Image(w.disk, m.header));
      assert w.durable[|w.durable|..] == [];
      assert r.disk.wal[0..] == [];
      assert w.disk.wal[w.disk.synced..] == [];
    }
  }

  lemma ReplayNothing(db: Db)
    ensures Replay(db, Records([])) == db
  {
  }

  lemma CheckpointFailsKeeps(w: World)
    requires Inv(w) && Enabled(w, CheckpointFails)
    ensures Inv(After(w, CheckpointFails))
  {
    hide Rebuild, Same, Replay, Records, Fold, ContentsOf, DrainAll, JournalInv, RestoreAll;
    var m := w.memory.value;
    RestoredMaps(m.phase.before, Image(w.disk, m.header));
  }

  lemma RestoredMaps(before: Live, image: Db)
    requires JournalInv(before, image)
    ensures ContentsOf(RestoreAll(DrainAll(before), before)) == ContentsOf(DrainAll(before))
    ensures JournalInv(RestoreAll(DrainAll(before), before), image)
  {
    hide ApplyJournal;
    var r := RestoreAll(DrainAll(before), before);
    forall n | n in image ensures r[n].journal.enabled && Tracks(image[n], r[n]) {
      assert r[n].journal.changes == before[n].journal.changes;
      SameMap(ApplyJournal(image[n], r[n].journal), ApplyJournal(image[n], before[n].journal));
    }
  }

  // ---------------------------------------------------------------- crash and recovery

  lemma CrashKeeps(w: World, k: nat, p: Slot, s: Slot)
    requires Inv(w) && Enabled(w, Crash(k, p, s))
    ensures Inv(After(w, Crash(k, p, s)))
  {
    hide GoodHeader, Rebuild, Fold, Same, ContentsOf, JournalInv, PhaseInv;
    var r := After(w, Crash(k, p, s));
    var d, e := w.disk, r.disk;
    var batch := d.wal[d.synced..k];
    assert e.wal[..e.synced] == d.wal[..k] == d.wal[..d.synced] + batch;
    DiskGrows(d, e, w.durable, batch);
  }

  /** Opening the disk a crash left succeeds and rebuilds the durable history. */
  lemma OpenRecovers(d: Disk, durable: seq<Commit>, p: Slot, s: Slot)
    requires LogInv(d, durable) && SlotInv(d, durable) && d.synced == |d.wal| && StrictVersions(d.wal)
    requires p in d.primary && s in d.shadow
    ensures Open(d.chunks, p, s, d.wal).Some?
    ensures MemoryInv(d, durable, Open(d.chunks, p, s, d.wal).value)
  {
    hide Rebuild, Same, Fold, ContentsOf, LoadMaps, ApplyAllLive, JournalInv;
    var h := ChooseHeader(p, s).value;
    assert GoodHeader(d, durable, h);
    var image := Image(d, h);
    assert d.wal[..d.synced] == d.wal && d.wal[d.synced..] == [];
    LoadedMaps(image);
    LiveContents(LoadMaps(image), Changes(Records(d.wal)), true);
    LiveJournals(LoadMaps(image), image, Changes(Records(d.wal)), true);
  }

  /** What a store that is down offers to opening. */
  lemma Down(w: World, p: Slot, s: Slot)
    requires Inv(w) && Enabled(w, Reopen(p, s))
    ensures LogInv(w.disk, w.durable) && SlotInv(w.disk, w.durable) && w.memory.None?
    ensures w.disk.synced == |w.disk.wal| && StrictVersions(w.disk.wal) && p in w.disk.primary && s in w.disk.shadow
    ensures After(w, Reopen(p, s)) == w.(memory := Open(w.disk.chunks, p, s, w.disk.wal))
  {
    hide LogInv, SlotInv, StrictVersions, Open;
  }

  /** A store that comes up with consistent memory is consistent. */
  lemma ComesUp(w: World, m: Memory)
    requires Inv(w) && w.memory.None? && MemoryInv(w.disk, w.durable, m)
    ensures Inv(w.(memory := Some(m)))
  {
    hide MemoryInv, SlotInv, LogInv, StrictVersions;
  }
}
