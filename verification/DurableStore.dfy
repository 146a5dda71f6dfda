/**
 * The store object: commits, group flush and checkpoints as the program runs them, each proved to
 * be the corresponding steps of the durability state machine.
 */
module DurableStore {
  import opened Bytes
  import opened SortedEntries
  import opened ChangeLog
  import opened MapJournal
  import opened Checkpoints
  import opened Durability
  import opened DurabilityProof
  import opened DurabilityRuns
  import opened Recovery

  /** Which file operation of a checkpoint fails, counted from writing the shadow slot, if any. */
  type Fault = x: int | 0 <= x <= 4 witness 4

  const NO_FAULT: Fault := 4

  const SWITCH: seq<Event> := [WriteShadow, SyncShadow, WritePrimary, SyncPrimary]

  /** The events of a checkpoint: all steps, or those before the fault and a rollback. */
  function CheckpointEvents(fault: Fault, cleared: bool): (es: seq<Event>) {
    [AppendChunk] + SWITCH[..fault] +
    [if fault < NO_FAULT then CheckpointFails else if cleared then ClearWal else ClearWalFails]
  }

  // ---------------------------------------------------------------- journals of all maps

  ghost predicate Journaling(live: Live) {
    forall n :: n in live ==> live[n].journal.enabled
  }

  lemma {:induction false} ChangesJournaled(live: Live, cs: seq<Change>)
    requires Journaling(live)
    ensures Journaling(ApplyAllLive(live, cs, true))
  {
    if cs != [] {
      ChangesJournaled(live, cs[..|cs| - 1]);
    }
  }

  lemma ReplayJournals(live: Live, batch: seq<Commit>)
    requires Journaling(live)
    ensures Journaling(ReplayLive(live, batch, true))
  {
    ChangesJournaled(live, Changes(Records(batch)));
  }

  /** What draining has produced once it has been through the maps in `done`. */
  ghost predicate Drained(live: Live, known: set<Name>, done: set<Name>,
                          base: Db, deltas: map<Name, MapDelta>, drained: map<Name, Journal>, left: Live)
    requires done <= live.Keys
  {
    && base == (map n | n in done :: live[n].contents)
    && deltas == (map n | n in done && (n !in known || Changed(live[n].journal)) :: DeltaFor(live[n], n in known))
    && drained == (map n | n in done :: live[n].journal)
    && left == (map n | n in live :: if n in done then live[n].(journal := EmptyJournal(true)) else live[n])
  }

  lemma DrainedNext(live: Live, known: set<Name>, done: set<Name>, n: Name,
                    base: Db, deltas: map<Name, MapDelta>, drained: map<Name, Journal>, left: Live)
    requires done <= live.Keys && n in live && n !in done && Drained(live, known, done, base, deltas, drained, left)
    ensures n in left && left[n] == live[n]
    ensures var s := live[n];
            Drained(live, known, done + {n}, base[n := s.contents],
                    if n !in known || Changed(s.journal) then deltas[n := DeltaFor(s, n in known)] else deltas,
                    drained[n := s.journal], left[n := s.(journal := EmptyJournal(true))])
  {
  }

  lemma DrainedAll(live: Live, known: set<Name>, base: Db, deltas: map<Name, MapDelta>, drained: map<Name, Journal>, left: Live)
    requires Drained(live, known, live.Keys, base, deltas, drained, left)
    ensures base == ContentsOf(live) && left == DrainAll(live)
    ensures deltas == map n | n in live && (n !in known || Changed(live[n].journal)) :: DeltaFor(live[n], n in known)
    ensures drained == map n | n in live :: live[n].journal
  {
  }

  /** Drains the journal of every map, in any order, into a full image and into deltas. */
  method Drain(live: Live, known: set<Name>)
    returns (base: Db, deltas: map<Name, MapDelta>, drained: map<Name, Journal>, left: Live)
    ensures Drained(live, known, live.Keys, base, deltas, drained, left)
  {
    hide Drained;
    base, deltas, drained, left := map[], map[], map[], live;
    var todo := live.Keys;
    DrainedNone(live, known);
    assert live.Keys - todo == {};
    while todo != {}
      invariant todo <= live.Keys
      invariant Drained(live, known, live.Keys - todo, base, deltas, drained, left)
      decreases todo
    {
      var n :| n in todo;
      DrainedNext(live, known, live.Keys - todo, n, base, deltas, drained, left);
      var s := left[n];
      left := left[n := s.(journal := EmptyJournal(true))];
      base := base[n := s.contents];
      if n !in known {
        deltas := deltas[n := MapDelta(Some(s.contents), false, map[])];
      } else if s.journal.clear || s.journal.changes != map[] {
        deltas := deltas[n := MapDelta(None, s.journal.clear, s.journal.changes)];
      }
      drained := drained[n := s.journal];
      assert live.Keys - (todo - {n}) == live.Keys - todo + {n};
      todo := todo - {n};
    }
    assert live.Keys - todo == live.Keys;
  }

  lemma DrainedNone(live: Live, known: set<Name>)
    ensures Drained(live, known, {}, map[], map[], map[], live)
  {
  }

  /** The chunk of a checkpoint: everything the first time, what changed after that. */
  method DrainToChunk(live: Live, known: set<Name>, first: bool, version: nat, prev: Option<nat>)
    returns (chunk: Chunk, drained: map<Name, Journal>, left: Live)
    ensures chunk == CheckpointChunk(live, known, first, version, prev)
    ensures left == DrainAll(live) && left.Keys == live.Keys && Journaling(left)
    ensures drained == map n | n in live :: live[n].journal
  {
    hide Drained, DrainAll, ContentsOf;
    var base, deltas;
    base, deltas, drained, left := Drain(live, known);
    DrainedAll(live, known, base, deltas, drained, left);
    DrainedKeys(live);
    chunk := if first then Base(version, base) else Delta(version, prev, known - live.Keys, deltas);
  }

  lemma DrainedKeys(live: Live)
    ensures DrainAll(live).Keys == live.Keys && Journaling(DrainAll(live))
  {
  }

  lemma RestoredJournals(live: Live)
    ensures Journaling(RestoreAll(DrainAll(live), live))
  {
  }

  /** Puts drained journals back, in any order. */
  method Restore(live: Live, before: Live, drained: map<Name, Journal>) returns (r: Live)
    requires drained == (map n | n in before :: before[n].journal) && before.Keys == live.Keys
    ensures r == RestoreAll(live, before)
  {
    hide Merge;
    r := live;
    var todo := drained.Keys;
    while todo != {}
      invariant todo <= drained.Keys && r.Keys == live.Keys
      invariant forall n :: n in live ==> r[n] == if n in todo then live[n] else live[n].(journal := Merge(before[n].journal, live[n].journal))
      decreases todo
    {
      var n :| n in todo;
      r := r[n := r[n].(journal := Merge(drained[n], r[n].journal))];
      todo := todo - {n};
    }
  }

  method TellAll(outcomes: map<nat, Outcome>, batch: seq<Commit>, o: Outcome) returns (r: map<nat, Outcome>)
    ensures r == Tell(outcomes, batch, o)
  {
    r := outcomes;
    for i := 0 to |batch|
      invariant r == Tell(outcomes, batch[..i], o)
    {
      assert batch[..i + 1][..i] == batch[..i];
      r := r[batch[i].ticket := o];
    }
    assert batch[..|batch|] == batch;
  }

  // ---------------------------------------------------------------- the events of a checkpoint

  /** The world after a chunk was appended and k steps of the header switch were taken. */
  ghost function Switching(w: World, k: Fault): (r: World)
    requires w.memory.Some?
  {
    var a := AppendChunkStep(w, w.memory.value);
    var m := a.memory.value;
    var h, before := m.phase.header, m.phase.before;
    if k == 0 then a
    else if k == 1 then a.(disk := a.disk.(shadow := a.disk.shadow + {Good(h)}), memory := Some(m.(phase := ShadowWritten(h, before))))
    else if k == 2 then a.(disk := a.disk.(shadow := {Good(h)}), memory := Some(m.(phase := ShadowSynced(h, before))))
    else if k == 3 then
      a.(disk := a.disk.(shadow := {Good(h)}, primary := a.disk.primary + {Good(h)}), memory := Some(m.(phase := PrimaryWritten(h, before))))
    else
      a.(disk := a.disk.(shadow := {Good(h)}, primary := {Good(h)}),
         memory := Some(m.(header := h, version := h.version,
                           nextVersion := if m.nextVersion < h.version then h.version else m.nextVersion,
                           hasCheckpoint := true, checkpointed := m.live.Keys, phase := Switched)))
  }

  /** Writes and syncs the shadow slot, then the primary slot, up to the operation that fails. */
  method SwitchHeaders(d: Disk, h: Header, fault: Fault) returns (r: Disk)
    ensures r == SwitchedDisk(d, h, fault)
  {
    r := d;
    if fault >= 1 {
      r := r.(shadow := r.shadow + {Good(h)});
    }
    if fault >= 2 {
      r := r.(shadow := {Good(h)});
    }
    if fault >= 3 {
      r := r.(primary := r.primary + {Good(h)});
    }
    if fault >= 4 {
      r := r.(primary := {Good(h)});
    }
  }

  /** The slots after k of these operations: an unsynced slot may hold its former value or the new one. */
  ghost function SwitchedDisk(d: Disk, h: Header, k: Fault): (r: Disk) {
    d.(shadow := if k == 0 then d.shadow else if k == 1 then d.shadow + {Good(h)} else {Good(h)},
       primary := if k < 3 then d.primary else if k == 3 then d.primary + {Good(h)} else {Good(h)})
  }

  lemma SwitchingIs(w: World, k: Fault, chunk: Chunk, left: Live, h: Header)
    requires w.memory.Some?
    requires var m := w.memory.value;
             && chunk == CheckpointChunk(m.live, m.checkpointed, !m.hasCheckpoint, m.version + 1, m.header.last)
             && left == DrainAll(m.live) && h == Header(m.version + 1, Some(|w.disk.chunks|))
    ensures var r := Switching(w, k);
            && r.disk == SwitchedDisk(w.disk.(chunks := w.disk.chunks + [chunk]), h, k)
            && r.memory.Some? && r == w.(disk := r.disk, memory := r.memory)
            && var m, m' := w.memory.value, r.memory.value;
            && m'.live == left && m'.queue == m.queue
            && (k < NO_FAULT ==>
                  && (m'.phase.Appended? || m'.phase.ShadowWritten? || m'.phase.ShadowSynced? || m'.phase.PrimaryWritten?)
                  && m'.phase.before == m.live && m' == m.(live := left, phase := m'.phase))
            && (k == NO_FAULT ==>
                  m' == m.(live := left, header := h, version := h.version,
                           nextVersion := if m.nextVersion < h.version then h.version else m.nextVersion,
                           hasCheckpoint := true, checkpointed := left.Keys, phase := Switched))
  {
    hide CheckpointChunk, DrainAll;
  }

  lemma SwitchStep(w: World, k: Fault)
    requires w.memory.Some? && k < NO_FAULT
    ensures Enabled(Switching(w, k), SWITCH[k]) && After(Switching(w, k), SWITCH[k]) == Switching(w, k + 1)
  {
    hide AppendChunkStep;
    assert AppendChunkStep(w, w.memory.value).memory.Some? && AppendChunkStep(w, w.memory.value).memory.value.phase.Appended? by {
      Appends(w);
    }
  }

  lemma Appends(w: World)
    requires w.memory.Some?
    ensures AppendChunkStep(w, w.memory.value).memory.Some? && AppendChunkStep(w, w.memory.value).memory.value.phase.Appended?
  {
  }

  lemma {:induction false} RunSnoc(w: World, es: seq<Event>, r: World, e: Event)
    requires Run(w, es, r) && Enabled(r, e)
    ensures Run(w, es + [e], After(r, e))
    decreases es
  {
    hide Enabled, After;
    if es == [] {
      NoEvents(After(r, e));
      assert (es + [e])[0] == e && (es + [e])[1..] == [];
    } else {
      RunSnoc(After(w, es[0]), es[1..], r, e);
      assert (es + [e])[0] == es[0] && (es + [e])[1..] == es[1..] + [e];
    }
  }

  lemma NoEvents(w: World)
    ensures Run(w, [], w)
  {
  }

  lemma {:induction false} SwitchRun(w: World, k: Fault)
    requires Inv(w) && Enabled(w, AppendChunk)
    ensures Run(w, [AppendChunk] + SWITCH[..k], Switching(w, k)) && Inv(Switching(w, k))
    decreases k
  {
    hide Inv, Run, AppendChunkStep;
    if k == 0 {
      NoEvents(w);
      RunSnoc(w, [], w, AppendChunk);
      StepKeeps(w, AppendChunk);
      assert [] + [AppendChunk] == [AppendChunk] + SWITCH[..0];
    } else {
      hide Switching;
      SwitchRun(w, k - 1);
      SwitchStep(w, k - 1);
      RunSnoc(w, [AppendChunk] + SWITCH[..k - 1], Switching(w, k - 1), SWITCH[k - 1]);
      StepKeeps(Switching(w, k - 1), SWITCH[k - 1]);
      assert [AppendChunk] + SWITCH[..k - 1] + [SWITCH[k - 1]] == [AppendChunk] + SWITCH[..k];
    }
  }

  /** A whole checkpoint: the steps up to the fault, and then the rollback or the clearing of the log. */
  lemma CheckpointRun(w: World, k: Fault, cleared: bool)
    requires Inv(w) && Enabled(w, AppendChunk)
    ensures var last := if k < NO_FAULT then CheckpointFails else if cleared then ClearWal else ClearWalFails;
            && Enabled(Switching(w, k), last)
            && Run(w, CheckpointEvents(k, cleared), After(Switching(w, k), last))
            && Inv(After(Switching(w, k), last))
  {
    hide Inv, Run;
    SwitchRun(w, k);
    var last := if k < NO_FAULT then CheckpointFails else if cleared then ClearWal else ClearWalFails;
    RunSnoc(w, [AppendChunk] + SWITCH[..k], Switching(w, k), last);
    StepKeeps(Switching(w, k), last);
  }

  // ---------------------------------------------------------------- single events, written out

  /** A store that is up and not in the middle of a checkpoint. */
  ghost predicate Up(w: World) {
    w.memory.Some? && w.memory.value.phase.Idle?
  }

  lemma PrepareFailsIs(w: World)
    requires Inv(w) && Up(w)
    ensures var m := w.memory.value;
            && Enabled(w, PrepareFails)
            && After(w, PrepareFails) == w.(memory := Some(m.(nextVersion := m.nextVersion + 1)),
                                            outcomes := w.outcomes[w.tickets := NotDurable], tickets := w.tickets + 1)
            && Inv(After(w, PrepareFails))
  {
    hide Inv;
    StepKeeps(w, PrepareFails);
  }

  lemma AppendFailsIs(w: World)
    requires Inv(w) && Up(w)
    ensures var m := w.memory.value;
            var start := if m.queue.pending == [] then Some(|w.disk.wal|) else m.queue.batchStart;
            && Enabled(w, AppendFails)
            && After(w, AppendFails) == w.(memory := Some(m.(nextVersion := m.nextVersion + 1, queue := m.queue.(batchStart := start))),
                                           outcomes := w.outcomes[w.tickets := NotDurable], tickets := w.tickets + 1)
            && Inv(After(w, AppendFails))
  {
    hide Inv;
    StepKeeps(w, AppendFails);
  }

  lemma EnqueueIs(w: World, txId: nat, changes: seq<Change>, timestamp: int)
    requires Inv(w) && Up(w)
    ensures var e := Enqueue(txId, changes, timestamp);
            && Enabled(w, e) && After(w, e) == EnqueueStep(w, w.memory.value, txId, changes, timestamp) && Inv(After(w, e))
  {
    hide Inv, EnqueueStep;
    StepKeeps(w, Enqueue(txId, changes, timestamp));
  }

  lemma FlushContents(live: Live, batch: seq<Commit>, journaling: bool)
    ensures ContentsOf(ReplayLive(live, batch, journaling)) == ApplyAll(ContentsOf(live), Changes(Records(batch)))
  {
    LiveContents(live, Changes(Records(batch)), journaling);
  }

  lemma FlushIs(w: World, syncs: bool)
    requires Inv(w) && Up(w) && w.memory.value.queue.leader
    ensures var e := if syncs then FlushOk else FlushFails;
            && Enabled(w, e) && Inv(After(w, e))
            && After(w, e) == if syncs then FlushOkStep(w, w.memory.value) else FlushFailsStep(w, w.memory.value)
  {
    hide Inv, FlushOkStep, FlushFailsStep;
    StepKeeps(w, if syncs then FlushOk else FlushFails);
  }

  lemma ReopenIs(w: World, p: Slot, s: Slot, m: Memory)
    requires Inv(w) && Enabled(w, Reopen(p, s)) && Open(w.disk.chunks, p, s, w.disk.wal) == Some(m)
    ensures After(w, Reopen(p, s)) == w.(memory := Some(m)) && Inv(w.(memory := Some(m)))
    ensures m.phase.Idle? && Journaling(m.live)
  {
    hide Inv, ReplayLive, MaxVersion, Rebuild;
    StepKeeps(w, Reopen(p, s));
    var image := Rebuild(w.disk.chunks, m.header.last).value;
    assert Journaling(LoadMaps(image));
    ReplayJournals(LoadMaps(image), w.disk.wal);
  }

  lemma CanCheckpoint(w: World)
    requires Up(w) && !w.memory.value.queue.leader
    ensures Enabled(w, AppendChunk)
  {
  }

  lemma CheckpointFailsIs(w: World)
    requires w.memory.Some? && Enabled(w, CheckpointFails)
    ensures var m := w.memory.value;
            After(w, CheckpointFails) == w.(memory := Some(m.(live := RestoreAll(m.live, m.phase.before), phase := Idle)))
  {
    hide RestoreAll;
  }

  lemma ClearIs(w: World, cleared: bool)
    requires w.memory.Some? && Enabled(w, if cleared then ClearWal else ClearWalFails)
    ensures var up := w.(memory := Some(w.memory.value.(phase := Idle)));
            After(w, if cleared then ClearWal else ClearWalFails)
              == if cleared then up.(disk := up.disk.(wal := [], synced := 0)) else up
  {
  }

  /** The world a whole checkpoint leads to, with the live maps put back if it failed. */
  ghost function Checkpointed(w: World, m: Memory, k: Fault, cleared: bool, chunk: Chunk, left: Live): (r: World) {
    var h := Header(m.version + 1, Some(|w.disk.chunks|));
    var d := SwitchedDisk(w.disk.(chunks := w.disk.chunks + [chunk]), h, k);
    if k < NO_FAULT then w.(disk := d, memory := Some(m.(live := RestoreAll(left, m.live))))
    else
      w.(disk := if cleared then d.(wal := [], synced := 0) else d,
         memory := Some(m.(live := left, header := h, version := h.version,
                           nextVersion := if m.nextVersion < h.version then h.version else m.nextVersion,
                           hasCheckpoint := true, checkpointed := left.Keys)))
  }

  lemma CheckpointGives(w: World, k: Fault, cleared: bool, chunk: Chunk, left: Live)
    requires Inv(w) && Up(w) && !w.memory.value.queue.leader
    requires var m := w.memory.value;
             && chunk == CheckpointChunk(m.live, m.checkpointed, !m.hasCheckpoint, m.version + 1, m.header.last)
             && left == DrainAll(m.live)
    ensures var r := Checkpointed(w, w.memory.value, k, cleared, chunk, left);
            Run(w, CheckpointEvents(k, cleared), r) && Inv(r)
  {
    hide Inv, Run, DrainAll, RestoreAll, After, Enabled, CheckpointEvents, Switching, CheckpointChunk, SwitchedDisk;
    CanCheckpoint(w);
    CheckpointRun(w, k, cleared);
    var m := w.memory.value;
    SwitchingIs(w, k, chunk, left, Header(m.version + 1, Some(|w.disk.chunks|)));
    if k < NO_FAULT {
      CheckpointFailsIs(Switching(w, k));
    } else {
      ClearIs(Switching(w, k), cleared);
    }
  }

  class MVStore {
    // The checkpoint file and the write-ahead log.
    var disk: Disk
    // The maps and the checkpoint bookkeeping.
    var maps: Live
    var checkpointed: set<Name>
    var hasCheckpoint: bool
    var header: Header
    var version: nat
    var nextVersion: nat
    var queue: Queue
    // What committers were told, and the history of the run.
    var outcomes: map<nat, Outcome>
    var tickets: nat
    ghost var durable: seq<Commit>
    ghost var interrupted: set<nat>

    ghost function State(): (w: World)
      reads this
    {
      World(disk, Some(Memory(maps, checkpointed, hasCheckpoint, header, version, nextVersion, queue, Idle)),
            durable, outcomes, interrupted, tickets)
    }

    /** Everything a run keeps, and journaling on every map once there is a checkpoint. */
    ghost predicate Valid()
      reads this
    {
      Inv(State()) && (hasCheckpoint ==> Journaling(maps))
    }

    /** The store built by opening a disk; the history continues that of the world before. */
    constructor (d: Disk, primary: Slot, shadow: Slot, m: Memory, told: map<nat, Outcome>, next: nat, ghost w: World)
      requires Inv(w) && Enabled(w, Reopen(primary, shadow)) && w.disk == d && w.outcomes == told && w.tickets == next
      requires Open(d.chunks, primary, shadow, d.wal) == Some(m)
      ensures Valid() && State() == After(w, Reopen(primary, shadow))
    {
      disk, maps, checkpointed, hasCheckpoint := d, m.live, m.checkpointed, m.hasCheckpoint;
      header, version, nextVersion, queue := m.header, m.version, m.nextVersion, m.queue;
      outcomes, tickets, durable, interrupted := told, next, w.durable, w.interrupted;
      new;
      hide Inv, Enabled, After, Open, Journaling;
      ReopenIs(w, primary, shadow, m);
    }

    /** A commit whose changes could not be prepared: its version is spent, nothing else changes. */
    method RefusePrepare()
      requires Valid()
      modifies this`nextVersion, this`outcomes, this`tickets
      ensures Valid() && State() == After(old(State()), PrepareFails)
    {
      hide Inv, After, Enabled, Journaling;
      PrepareFailsIs(State());
      nextVersion := nextVersion + 1;
      outcomes, tickets := outcomes[tickets := NotDurable], tickets + 1;
    }

    /** A commit whose frame could not be appended: the log is cut back to where it was. */
    method RefuseAppend()
      requires Valid()
      modifies this`nextVersion, this`queue, this`outcomes, this`tickets
      ensures Valid() && State() == After(old(State()), AppendFails)
    {
      hide Inv, After, Enabled, Journaling;
      AppendFailsIs(State());
      nextVersion := nextVersion + 1;
      if queue.pending == [] {
        queue := queue.(batchStart := Some(|disk.wal|));
      }
      outcomes, tickets := outcomes[tickets := NotDurable], tickets + 1;
    }

    /** A commit up to the point where it waits: version, log frame, place in the queue, leadership. */
    method BeginCommit(txId: nat, changes: seq<Change>, timestamp: int) returns (isLeader: bool)
      requires Valid()
      modifies this`disk, this`nextVersion, this`queue, this`tickets
      ensures Valid() && State() == After(old(State()), Enqueue(txId, changes, timestamp))
      ensures nextVersion == old(nextVersion) + 1 && tickets == old(tickets) + 1
      ensures var c := Commit(old(tickets), Record(txId, nextVersion, changes, timestamp));
              disk.wal == old(disk.wal) + [c] && queue.pending == old(queue.pending) + [c]
      ensures queue.leader && (isLeader <==> !old(queue.leader))
    {
      hide Inv, After, Enabled, Journaling;
      EnqueueIs(State(), txId, changes, timestamp);
      nextVersion := nextVersion + 1;
      var commit := Commit(tickets, Record(txId, nextVersion, changes, timestamp));
      if queue.pending == [] {
        queue := queue.(batchStart := Some(|disk.wal|));
      }
      disk := disk.(wal := disk.wal + [commit]);
      isLeader := !queue.leader;
      queue := queue.(pending := queue.pending + [commit], leader := true);
      tickets := tickets + 1;
    }

    /** Applies the changes of a batch to the maps, and takes the version of its last commit. */
    method ApplyBatch(batch: seq<Commit>)
      modifies this`maps, this`version
      ensures maps == ReplayLive(old(maps), batch, hasCheckpoint)
      ensures ContentsOf(maps) == ApplyAll(old(ContentsOf(maps)), Changes(Records(batch)))
      ensures version == if batch == [] then old(version) else batch[|batch| - 1].record.version
      ensures hasCheckpoint && old(Journaling(maps)) ==> Journaling(maps)
    {
      hide ReplayLive, ContentsOf, Journaling;
      FlushContents(maps, batch, hasCheckpoint);
      if hasCheckpoint && Journaling(maps) {
        ReplayJournals(maps, batch);
      }
      maps := ReplayCommits(maps, batch, hasCheckpoint);
      if batch != [] {
        version := batch[|batch| - 1].record.version;
      }
    }

    /** The leader's part when the sync succeeds: applies the batch and tells every committer. */
    method FlushSynced()
      requires Valid() && queue.leader
      modifies this`disk, this`maps, this`version, this`queue, this`outcomes, this`durable
      ensures Valid() && State() == After(old(State()), FlushOk)
      ensures ContentsOf(maps) == ApplyAll(old(ContentsOf(maps)), Changes(Records(old(queue.pending))))
      ensures queue == Queue([], false, None) && disk == old(disk).(synced := |old(disk.wal)|)
    {
      hide Inv, ReplayLive, Tell, After, Enabled, Journaling, ContentsOf;
      FlushIs(State(), true);
      var batch := queue.pending;
      disk := disk.(synced := |disk.wal|);
      ApplyBatch(batch);
      durable := durable + batch;
      outcomes := TellAll(outcomes, batch, Durable);
      queue := Queue([], false, None);
    }

    /** The leader's part when the sync fails: cuts the log back to the batch start and tells every committer. */
    method FlushUnsynced()
      requires Valid() && queue.leader
      modifies this`disk, this`queue, this`outcomes
      ensures Valid() && State() == After(old(State()), FlushFails)
      ensures maps == old(maps) && queue == Queue([], false, None)
    {
      hide Inv, Tell, After, Enabled, Journaling;
      FlushIs(State(), false);
      var batch := queue.pending;
      var start := if queue.batchStart.Some? then queue.batchStart.value else 0;
      var wal := if start <= |disk.wal| then disk.wal[..start] else disk.wal;
      disk := disk.(wal := wal, synced := |wal|);
      outcomes := TellAll(outcomes, batch, NotDurable);
      queue := Queue([], false, None);
    }

    /** Opens a map by name, creating it if there is none. */
    method OpenNamed(name: Name)
      requires Valid()
      modifies this`maps
      ensures Valid() && State() == After(old(State()), OpenMap(name))
    {
      hide Inv;
      ghost var before := State();
      if name !in maps {
        maps := maps[name := MapState(map[], EmptyJournal(hasCheckpoint))];
      }
      StepKeeps(before, OpenMap(name));
    }

    /** A checkpoint whose header switch does not complete: the drained journals are put back. */
    method FailedCheckpoint(fault: Fault)
      requires Valid() && !queue.leader && fault < NO_FAULT
      modifies this`disk, this`maps
      ensures Valid() && Run(old(State()), CheckpointEvents(fault, false), State())
    {
      hide Inv, Run, DrainAll, RestoreAll, CheckpointEvents, Journaling, SwitchedDisk, CheckpointChunk;
      var live := maps;
      var chunk, drained, left := DrainToChunk(live, checkpointed, !hasCheckpoint, version + 1, header.last);
      CheckpointGives(State(), fault, false, chunk, left);
      var next := Header(version + 1, Some(|disk.chunks|));
      disk := SwitchHeaders(disk.(chunks := disk.chunks + [chunk]), next, fault);
      maps := Restore(left, live, drained);
      RestoredJournals(live);
    }

    /** A checkpoint whose chunk and headers reach the disk; clearing the log behind it may still fail. */
    method CompletedCheckpoint(cleared: bool)
      requires Valid() && !queue.leader
      modifies this`disk, this`maps, this`checkpointed, this`hasCheckpoint, this`header, this`version, this`nextVersion
      ensures Valid() && Run(old(State()), CheckpointEvents(NO_FAULT, cleared), State())
    {
      hide Inv, Run, DrainAll, CheckpointEvents, Journaling, SwitchedDisk, CheckpointChunk;
      var chunk, drained, left := DrainToChunk(maps, checkpointed, !hasCheckpoint, version + 1, header.last);
      CheckpointGives(State(), NO_FAULT, cleared, chunk, left);
      var next := Header(version + 1, Some(|disk.chunks|));
      var file := SwitchHeaders(disk.(chunks := disk.chunks + [chunk]), next, NO_FAULT);
      maps, disk := left, if cleared then file.(wal := [], synced := 0) else file;
      Adopt(next);
    }

    /** Makes a header the current one: its version, its maps, and journaling from now on. */
    method Adopt(h: Header)
      modifies this`checkpointed, this`hasCheckpoint, this`header, this`version, this`nextVersion
      ensures header == h && version == h.version && hasCheckpoint && checkpointed == maps.Keys
      ensures nextVersion == if old(nextVersion) < h.version then h.version else old(nextVersion)
    {
      header, version := h, h.version;
      nextVersion := if nextVersion < h.version then h.version else nextVersion;
      hasCheckpoint, checkpointed := true, maps.Keys;
    }

    /**
     * Drains the journals into a chunk, appends it, switches both header slots to it and clears the
     * log. If a file operation fails before the switch is complete, the journals are put back.
     */
    method Checkpoint(fault: Fault, cleared: bool) returns (ok: bool)
      requires Valid() && !queue.leader
      modifies this`disk, this`maps, this`checkpointed, this`hasCheckpoint, this`header, this`version, this`nextVersion
      ensures Valid()
      ensures Run(old(State()), CheckpointEvents(fault, if fault == NO_FAULT then cleared else false), State())
      ensures ok <==> fault == NO_FAULT && cleared
    {
      hide Inv, Run, CheckpointEvents, Journaling;
      if fault < NO_FAULT {
        FailedCheckpoint(fault);
        ok := false;
      } else {
        CompletedCheckpoint(cleared);
        ok := cleared;
      }
    }
  }
}
