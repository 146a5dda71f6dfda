/** Theorems about whole runs of the durable store. */
module DurabilityRuns {
  import opened Bytes
  import opened SortedEntries
  import opened ChangeLog
  import opened MapJournal
  import opened Checkpoints
  import opened Durability
  import opened DurabilityProof

  lemma StepKeeps(w: World, e: Event)
    requires Inv(w) && Enabled(w, e)
    ensures Inv(After(w, e))
  {
    hide Inv, Enabled, After, Open, MemoryInv, LogInv, SlotInv, StrictVersions;
    match e
    case OpenMap(n) => OpenMapKeeps(w, n);
    case Enqueue(t, cs, ts) => EnqueueKeeps(w, t, cs, ts);
    case PrepareFails => RejectKeeps(w, e);
    case AppendFails => RejectKeeps(w, e);
    case FlushOk => FlushOkKeeps(w);
    case FlushFails => FlushFailsKeeps(w);
    case AppendChunk => AppendChunkKeeps(w);
    case WriteShadow => WriteShadowKeeps(w);
    case SyncShadow => SyncShadowKeeps(w);
    case WritePrimary => WritePrimaryKeeps(w);
    case SyncPrimary => SyncPrimaryKeeps(w);
    case ClearWal => ClearWalKeeps(w, e);
    case ClearWalFails => ClearWalKeeps(w, e);
    case CheckpointFails => CheckpointFailsKeeps(w);
    case Crash(k, p, s) => CrashKeeps(w, k, p, s);
    case Reopen(p, s) =>
      Down(w, p, s);
      OpenRecovers(w.disk, w.durable, p, s);
      ComesUp(w, Open(w.disk.chunks, p, s, w.disk.wal).value);
  }

  // ---------------------------------------------------------------- outcomes

  function Pending(w: World): (cs: seq<Commit>) {
    if w.memory.Some? then w.memory.value.queue.pending else []
  }

  function Tickets(cs: seq<Commit>): (ts: set<nat>) {
    set c | c in cs :: c.ticket
  }

  /** The commits with an outcome, interrupted by a crash, or waiting. */
  function Begun(w: World): (ts: set<nat>) {
    w.outcomes.Keys + w.interrupted + Tickets(Pending(w))
  }

  /**
   * Every commit ever begun has an outcome, or is pending, or was pending at a crash, and only one
   * of these; a commit told to be durable is, and one told not to be is not.
   */
  ghost predicate TicketInv(w: World) {
    && Tickets(w.durable) !! Tickets(Pending(w))
    && (forall c :: c in w.durable ==> c.ticket < w.tickets)
    && (forall t :: t in Begun(w) <==> 0 <= t < w.tickets)
    && w.outcomes.Keys !! w.interrupted !! Tickets(Pending(w))
    && (forall t :: t in w.outcomes ==> (w.outcomes[t].Durable? <==> t in Tickets(w.durable)))
  }

  lemma {:induction false} TellGives(outcomes: map<nat, Outcome>, cs: seq<Commit>, o: Outcome)
    ensures var r := Tell(outcomes, cs, o);
            && r.Keys == outcomes.Keys + Tickets(cs)
            && forall t :: t in r ==> r[t] == if t in Tickets(cs) then o else outcomes[t]
  {
    if cs != [] {
      var front, c := cs[..|cs| - 1], cs[|cs| - 1];
      TellGives(outcomes, front, o);
      assert cs == front + [c];
      TicketsConcat(front, [c]);
    }
  }

  lemma TicketsConcat(a: seq<Commit>, b: seq<Commit>)
    ensures Tickets(a + b) == Tickets(a) + Tickets(b)
  {
    assert forall c :: c in a + b <==> c in a || c in b;
  }

  /** No step changes or withdraws an outcome. */
  lemma OutcomesStand(w: World, e: Event)
    requires Inv(w) && TicketInv(w) && Enabled(w, e)
    ensures forall t :: t in w.outcomes ==> t in After(w, e).outcomes && After(w, e).outcomes[t] == w.outcomes[t]
  {
    hide Inv, Tickets, MemoryInv, LogInv, SlotInv;
    match e
    case FlushOk => TellGives(w.outcomes, Pending(w), Durable);
    case FlushFails => TellGives(w.outcomes, Pending(w), NotDurable);
    case _ => assert w.tickets !in Begun(w);
  }

  /** A new commit takes a fresh ticket, whether it is queued or refused. */
  lemma BeginTickets(w: World, e: Event)
    requires Inv(w) && TicketInv(w) && Enabled(w, e) && (e.Enqueue? || e.PrepareFails? || e.AppendFails?)
    ensures TicketInv(After(w, e))
  {
    hide Inv, Tickets;
    var r := After(w, e);
    assert w.tickets !in Begun(w);
    DurableBelow(w);
    if e.Enqueue? {
      var c := Pending(r)[|Pending(w)|];
      TicketsConcat(Pending(w), [c]);
      TicketOf(c);
    }
    assert Begun(r) == Begun(w) + {w.tickets};
  }

  lemma FlushTickets(w: World, e: Event)
    requires Inv(w) && TicketInv(w) && Enabled(w, e) && (e.FlushOk? || e.FlushFails?)
    ensures TicketInv(After(w, e))
  {
    hide Inv, Tickets;
    TellGives(w.outcomes, Pending(w), if e.FlushOk? then Durable else NotDurable);
    NoTickets();
    assert Begun(After(w, e)) == Begun(w);
    if e.FlushOk? {
      TicketsConcat(w.durable, Pending(w));
      PendingBelow(w);
    }
  }

  lemma TicketsKept(w: World, e: Event)
    requires Inv(w) && TicketInv(w) && Enabled(w, e)
    ensures TicketInv(After(w, e))
  {
    hide Inv, Tickets;
    match e
    case Enqueue(_, _, _) => BeginTickets(w, e);
    case PrepareFails => BeginTickets(w, e);
    case AppendFails => BeginTickets(w, e);
    case FlushOk => FlushTickets(w, e);
    case FlushFails => FlushTickets(w, e);
    case Crash(k, p, s) => CrashTickets(w, k, p, s);
    case _ =>
      assert Pending(After(w, e)) == Pending(w);
      assert Begun(After(w, e)) == Begun(w);
  }

  lemma TicketOf(c: Commit)
    ensures Tickets([c]) == {c.ticket}
  {
  }

  lemma NoTickets()
    ensures Tickets([]) == {}
  {
  }

  lemma DurableBelow(w: World)
    requires TicketInv(w)
    ensures w.tickets !in Tickets(w.durable)
  {
  }

  lemma PendingBelow(w: World)
    requires TicketInv(w)
    ensures forall c :: c in Pending(w) ==> c.ticket < w.tickets
  {
    forall c | c in Pending(w) ensures c.ticket < w.tickets {
      assert c.ticket in Begun(w);
    }
  }

  lemma CrashTickets(w: World, k: nat, p: Slot, s: Slot)
    requires Inv(w) && TicketInv(w) && Enabled(w, Crash(k, p, s))
    ensures TicketInv(After(w, Crash(k, p, s)))
  {
    hide Inv, SlotInv, LogInv, Tickets;
    var d, r := w.disk, After(w, Crash(k, p, s));
    var kept := d.wal[d.synced..k];
    PendingIsTail(w);
    assert Pending(w) == kept + d.wal[k..];
    TicketsConcat(kept, d.wal[k..]);
    TicketsConcat(w.durable, kept);
    PendingBelow(w);
    NoTickets();
    InterruptedAfter(w, k, p, s);
    assert Begun(r) == Begun(w);
  }

  lemma InterruptedAfter(w: World, k: nat, p: Slot, s: Slot)
    requires Enabled(w, Crash(k, p, s))
    ensures After(w, Crash(k, p, s)).interrupted == w.interrupted + Tickets(Pending(w))
  {
  }

  lemma PendingIsTail(w: World)
    requires Inv(w) && w.memory.Some?
    ensures w.disk.synced <= |w.disk.wal| && Pending(w) == w.disk.wal[w.disk.synced..]
  {
    hide GoodHeader, Rebuild, Fold, Same, JournalInv, PhaseInv, VersionInv, SlotInv;
  }

  // ---------------------------------------------------------------- versions

  /** Commits no longer in the log are not newer than the header. */
  ghost predicate Covers(h: Header, d: Disk, durable: seq<Commit>) {
    d.synced <= |durable| && forall c :: c in durable[..|durable| - d.synced] ==> c.record.version <= h.version
  }

  /** The durable history and the pending batch are in strictly increasing version order. */
  ghost predicate OrderInv(w: World) {
    && StrictVersions(w.durable + Pending(w))
    && (forall s :: s in w.disk.primary + w.disk.shadow && s.Good? ==> Covers(s.header, w.disk, w.durable))
    && (w.memory.Some? ==>
          var m := w.memory.value;
          && (forall c :: c in w.durable ==> c.record.version <= m.version)
          && (forall c :: c in Pending(w) ==> c.record.version <= m.nextVersion)
          && m.version <= m.nextVersion && Covers(m.header, w.disk, w.durable)
          && (m.phase.Switched? ==> m.header.version == m.version)
          && (!m.phase.Idle? && !m.phase.Switched? ==> m.phase.header.version == m.version + 1))
  }

  lemma StrictAppend(cs: seq<Commit>, c: Commit)
    requires StrictVersions(cs) && forall x :: x in cs ==> x.record.version < c.record.version
    ensures StrictVersions(cs + [c])
  {
    forall i, j | 0 <= i < j < |cs| + 1 ensures (cs + [c])[i].record.version < (cs + [c])[j].record.version {
      assert (cs + [c])[i] == cs[i] && cs[i] in cs;
    }
  }

  lemma StrictFront(a: seq<Commit>, b: seq<Commit>)
    requires StrictVersions(a + b)
    ensures StrictVersions(a)
  {
    forall i, j | 0 <= i < j < |a| ensures a[i].record.version < a[j].record.version {
      assert (a + b)[i] == a[i] && (a + b)[j] == a[j];
    }
  }

  lemma LastIsNewest(cs: seq<Commit>)
    requires StrictVersions(cs) && cs != []
    ensures forall c :: c in cs ==> c.record.version <= cs[|cs| - 1].record.version
  {
  }

  lemma BeginOrder(w: World, e: Event)
    requires Inv(w) && OrderInv(w) && Enabled(w, e) && (e.Enqueue? || e.PrepareFails? || e.AppendFails?)
    ensures OrderInv(After(w, e))
  {
    hide Inv, StrictVersions;
    var r, all := After(w, e), w.durable + Pending(w);
    if e.Enqueue? {
      var c := Pending(r)[|Pending(w)|];
      assert forall x :: x in all ==> x in w.durable || x in Pending(w);
      StrictAppend(all, c);
      assert r.durable + Pending(r) == all + [c];
    }
  }

  lemma FlushOkOrder(w: World)
    requires Inv(w) && OrderInv(w) && Enabled(w, FlushOk)
    ensures OrderInv(After(w, FlushOk))
  {
    hide Inv, StrictVersions, ReplayLive, Tell;
    var r, all := After(w, FlushOk), w.durable + Pending(w);
    LeaderHasBatch(w, FlushOk);
    PendingIsTail(w);
    LogWithin(w);
    assert r.durable == all && r.durable + Pending(r) == all;
    LastIsNewest(all);
    assert Pending(w)[|Pending(w)| - 1] in Pending(w);
    assert r.durable[..|r.durable| - r.disk.synced] == w.durable[..|w.durable| - w.disk.synced];
  }

  lemma FlushFailsOrder(w: World)
    requires Inv(w) && OrderInv(w) && Enabled(w, FlushFails)
    ensures OrderInv(After(w, FlushFails))
  {
    hide Inv, StrictVersions, Tell;
    var r := After(w, FlushFails);
    LeaderHasBatch(w, FlushFails);
    PendingIsTail(w);
    StrictFront(w.durable, Pending(w));
    assert r.durable + Pending(r) == w.durable;
    FlushFailsKeeps(w);
  }

  lemma LeaderHasBatch(w: World, e: Event)
    requires Inv(w) && Enabled(w, e) && (e.FlushOk? || e.FlushFails?)
    ensures Pending(w) != [] && w.memory.value.phase.Idle?
  {
    hide GoodHeader, Rebuild, Fold, Same, JournalInv, VersionInv, SlotInv;
  }

  lemma CrashOrder(w: World, e: Event)
    requires Inv(w) && OrderInv(w) && Enabled(w, e) && e.Crash?
    ensures OrderInv(After(w, e))
  {
    hide Inv, StrictVersions;
    var d, r := w.disk, After(w, e);
    PendingIsTail(w);
    LogWithin(w);
    var kept, rest := d.wal[d.synced..e.kept], d.wal[e.kept..];
    assert Pending(w) == kept + rest;
    assert w.durable + Pending(w) == r.durable + rest && r.durable + Pending(r) == r.durable;
    StrictFront(r.durable, rest);
    assert r.durable[..|r.durable| - r.disk.synced] == w.durable[..|w.durable| - d.synced];
  }

  lemma LogWithin(w: World)
    requires Inv(w)
    ensures w.disk.synced <= |w.disk.wal| && w.disk.synced <= |w.durable|
    ensures w.durable[|w.durable| - w.disk.synced..] == w.disk.wal[..w.disk.synced]
    ensures w.memory.None? ==> w.disk.synced == |w.disk.wal|
  {
    hide SlotInv, MemoryInv;
  }

  lemma ReopenOrder(w: World, e: Event)
    requires Inv(w) && OrderInv(w) && Enabled(w, e) && e.Reopen?
    ensures OrderInv(After(w, e))
  {
    hide Inv, StrictVersions, ReplayLive, LoadMaps, Rebuild, LogInv, SlotInv, MemoryInv;
    var d, r := w.disk, After(w, e);
    Down(w, e.primary, e.shadow);
    OpenRecovers(d, w.durable, e.primary, e.shadow);
    LogWithin(w);
    assert d.wal[..d.synced] == d.wal;
    var h := ChooseHeader(e.primary, e.shadow).value;
    var cut := |w.durable| - d.synced;
    assert w.durable == w.durable[..cut] + d.wal;
    assert Covers(h, d, w.durable);
    assert r.durable + Pending(r) == w.durable + Pending(w);
    forall c | c in w.durable ensures c.record.version <= r.memory.value.version {
      assert c in w.durable[..cut] || c in d.wal;
    }
  }

  lemma CheckpointOrder(w: World, e: Event)
    requires Inv(w) && OrderInv(w) && Enabled(w, e)
    requires e.OpenMap? || e.AppendChunk? || e.WriteShadow? || e.SyncShadow? || e.WritePrimary? || e.SyncPrimary?
          || e.ClearWalFails? || e.CheckpointFails?
    ensures OrderInv(After(w, e))
  {
    hide Inv, StrictVersions, DrainAll, RestoreAll, CheckpointChunk;
    var r := After(w, e);
    assert Pending(r) == Pending(w) && r.durable == w.durable && r.disk.synced == w.disk.synced;
    LogWithin(w);
    assert forall c :: c in w.durable[..|w.durable| - w.disk.synced] ==> c in w.durable;
  }

  lemma ClearWalOrder(w: World)
    requires Inv(w) && OrderInv(w) && Enabled(w, ClearWal)
    ensures OrderInv(After(w, ClearWal))
  {
    hide Inv, StrictVersions;
    var r := After(w, ClearWal);
    assert Pending(r) == Pending(w) && r.durable == w.durable;
    SwitchedSlots(w);
    assert w.durable[..|w.durable| - 0] == w.durable;
  }

  lemma SwitchedSlots(w: World)
    requires Inv(w) && w.memory.Some? && w.memory.value.phase.Switched?
    ensures w.disk.primary == {Good(w.memory.value.header)} && w.disk.shadow == {Good(w.memory.value.header)}
  {
    hide GoodHeader, Rebuild, Fold, Same, JournalInv, VersionInv, SlotInv;
  }

  lemma OrderKept(w: World, e: Event)
    requires Inv(w) && OrderInv(w) && Enabled(w, e)
    ensures OrderInv(After(w, e))
  {
    hide Inv, OrderInv, Enabled, After;
    match e
    case Enqueue(_, _, _) => BeginOrder(w, e);
    case PrepareFails => BeginOrder(w, e);
    case AppendFails => BeginOrder(w, e);
    case FlushOk => FlushOkOrder(w);
    case FlushFails => FlushFailsOrder(w);
    case ClearWal => ClearWalOrder(w);
    case Crash(_, _, _) => CrashOrder(w, e);
    case Reopen(_, _) => ReopenOrder(w, e);
    case _ => CheckpointOrder(w, e);
  }

  // ---------------------------------------------------------------- whole runs

  /** A header without a checkpoint, on a disk without a log, stands for the empty history. */
  lemma NoCheckpoint(d: Disk, h: Header)
    requires d.wal == [] && d.synced == 0 && h.last.None?
    ensures GoodHeader(d, [], h) && Image(d, h) == map[] && Fold([]) == map[]
  {
    assert d.wal[..0] == [];
    ReplayNothing(map[]);
  }

  lemma OneGoodSlot(d: Disk, durable: seq<Commit>, h: Header)
    requires d.primary == {Good(h)} && d.shadow == {Bad} && GoodHeader(d, durable, h)
    ensures SlotInv(d, durable)
  {
    hide GoodHeader;
    assert Good(h) in d.primary && Bad in d.shadow;
  }

  lemma NewMemory(d: Disk, m: Memory)
    requires d.wal == [] && d.synced == 0
    requires m == Memory(map[], {}, false, m.header, 0, 0, Queue([], false, None), Idle) && m.header.last.None?
    ensures MemoryInv(d, [], m)
  {
    hide GoodHeader, Fold, Rebuild;
    NoCheckpoint(d, m.header);
    assert ContentsOf(map[]) == map[];
    assert JournalInv(map[], map[]);
  }

  lemma NewHistory(w: World)
    requires w.durable == [] && w.disk.wal == [] && w.outcomes == map[] && w.interrupted == {} && w.tickets == 0
    requires w.memory.Some? && w.memory.value.queue.pending == []
    ensures TicketInv(w)
  {
    NoTickets();
    assert Begun(w) == {};
  }

  lemma NewOrder(w: World)
    requires w.disk.synced == 0 && w.durable == [] && w.memory.Some?
    requires var m := w.memory.value; m.queue.pending == [] && m.version <= m.nextVersion && m.phase.Idle?
    ensures OrderInv(w)
  {
  }

  /** A new store is consistent. */
  lemma NewStoreKeeps(w: World, h: Header)
    requires w == World(Disk([], {Good(h)}, {Bad}, [], 0), w.memory, [], map[], {}, 0) && h == Header(0, None)
    requires w.memory == Some(Memory(map[], {}, false, h, 0, 0, Queue([], false, None), Idle))
    ensures Inv(w) && TicketInv(w) && OrderInv(w)
  {
    hide MemoryInv, SlotInv, GoodHeader, Fold, TicketInv, OrderInv, StrictVersions;
    NewOrder(w);
    NoCheckpoint(w.disk, h);
    OneGoodSlot(w.disk, [], h);
    NewMemory(w.disk, w.memory.value);
    NewHistory(w);
  }

  lemma {:induction false} RunKeeps(w: World, es: seq<Event>, r: World)
    requires Inv(w) && TicketInv(w) && OrderInv(w) && Run(w, es, r)
    ensures Inv(r) && TicketInv(r) && OrderInv(r)
    decreases es
  {
    hide Inv, TicketInv, OrderInv, Enabled, After;
    if es != [] {
      StepKeeps(w, es[0]);
      TicketsKept(w, es[0]);
      OrderKept(w, es[0]);
      RunKeeps(After(w, es[0]), es[1..], r);
    }
  }

  ghost predicate Reachable(w: World) {
    exists es :: Run(INITIAL, es, w)
  }

  lemma ReachableKeeps(w: World)
    requires Reachable(w)
    ensures Inv(w) && TicketInv(w) && OrderInv(w)
  {
    hide Inv, TicketInv, OrderInv, Run;
    var es :| Run(INITIAL, es, w);
    NewStoreKeeps(INITIAL, Header(0, None));
    RunKeeps(INITIAL, es, w);
  }

  /**
   * Crash recovery. After any run, whatever prefix of the unsynced batch and whichever slot values
   * the crash leaves, opening succeeds and rebuilds the fold of the durable commits followed by
   * that prefix. These commits are in version order; every commit told to be durable is among
   * them and none told not to be durable is.
   */
  lemma CrashRecovery(w: World, kept: nat, p: Slot, s: Slot)
    requires Reachable(w) && Enabled(w, Crash(kept, p, s))
    ensures w.disk.synced <= kept <= w.disk.synced + |Pending(w)|
    ensures var d := w.disk;
            var survivors := w.durable + Pending(w)[..kept - d.synced];
            var store := Open(d.chunks, p, s, d.wal[..kept]);
            && store.Some?
            && Same(ContentsOf(store.value.live), Fold(survivors))
            && StrictVersions(survivors)
            && forall t :: t in w.outcomes ==> (w.outcomes[t].Durable? <==> t in Tickets(survivors))
  {
    hide Open, Fold, ContentsOf, Same, Replay, Tickets, GoodHeader, QueueInv, VersionInv, PhaseInv, Reachable;
    ReachableKeeps(w);
    var d, batch := w.disk, Pending(w);
    PendingIsTail(w);
    CrashKeeps(w, kept, p, s);
    var c := After(w, Crash(kept, p, s));
    assert d.wal[d.synced..kept] == batch[..kept - d.synced];
    OpenRecovers(c.disk, c.durable, p, s);
    CrashOrder(w, Crash(kept, p, s));
    assert c.durable + Pending(c) == c.durable;
    CrashTickets(w, kept, p, s);
  }

  /**
   * Group commit. Whenever the queue is unlocked: a leader is set exactly when commits are pending,
   * the log is its synced frames followed by the pending ones in strictly increasing version order,
   * and the noted batch start is the boundary between them.
   */
  lemma GroupCommit(w: World)
    requires Reachable(w) && w.memory.Some?
    ensures var d, q := w.disk, w.memory.value.queue;
            && (q.leader <==> q.pending != [])
            && d.synced <= |d.wal| && d.wal == d.wal[..d.synced] + q.pending
            && StrictVersions(d.wal)
            && (q.leader ==> q.batchStart == Some(d.synced))
  {
    hide Reachable, TicketInv, OrderInv, GoodHeader, Same, JournalInv, PhaseInv, SlotInv;
    ReachableKeeps(w);
    var d := w.disk;
    assert d.wal == d.wal[..d.synced] + d.wal[d.synced..];
  }

  /**
   * A flush gives every pending commit its outcome and no other; a failed one restores the log
   * to the batch boundary and leaves maps and durable history alone.
   */
  lemma FlushDecides(w: World, e: Event)
    requires Reachable(w) && Enabled(w, e) && (e.FlushOk? || e.FlushFails?)
    ensures w.disk.synced <= |w.disk.wal|
    ensures var r, o := After(w, e), if e.FlushOk? then Durable else NotDurable;
            && Pending(r) == [] && !r.memory.value.queue.leader
            && r.outcomes.Keys == w.outcomes.Keys + Tickets(Pending(w))
            && Tickets(Pending(w)) !! w.outcomes.Keys
            && (forall t :: t in r.outcomes ==> r.outcomes[t] == if t in Tickets(Pending(w)) then o else w.outcomes[t])
            && (e.FlushFails? ==> r.disk.wal == w.disk.wal[..w.disk.synced] && r.durable == w.durable
                                  && r.memory.value.live == w.memory.value.live)
            && (e.FlushOk? ==> r.durable == w.durable + Pending(w) && r.disk.synced == |r.disk.wal|)
  {
    hide Reachable, Inv, OrderInv, Tickets;
    ReachableKeeps(w);
    LogWithin(w);
    TellGives(w.outcomes, Pending(w), if e.FlushOk? then Durable else NotDurable);
    if e.FlushFails? {
      FlushFailsKeeps(w);
    }
  }
}
