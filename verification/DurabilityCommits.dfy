/** From what committers hand in to what the maps hold: through flushes, checkpoints, crashes and reopening. */
module DurabilityCommits {
  import opened Bytes
  import opened SortedEntries
  import opened ChangeLog
  import opened MapJournal
  import opened Checkpoints
  import opened Durability
  import opened DurabilityProof
  import opened DurabilityRuns
  import opened DurableStore

  // ---------------------------------------------------------------- the log holds what was handed in

  predicate IsBegin(e: Event) {
    e.Enqueue? || e.PrepareFails? || e.AppendFails?
  }

  /** The commits begun in a run, in order; a ticket is a place in this list. */
  function Begins(es: seq<Event>): (bs: seq<Event>) {
    if es == [] then [] else Begins(es[..|es| - 1]) + if IsBegin(es[|es| - 1]) then [es[|es| - 1]] else []
  }

  /** The commit carries the transaction, the changes and the time that its committer handed in. */
  ghost predicate HandedIn(es: seq<Event>, c: Commit) {
    c.ticket < |Begins(es)| && Begins(es)[c.ticket] == Enqueue(c.record.txId, c.record.changes, c.record.timestamp)
  }

  ghost predicate AsHandedIn(es: seq<Event>, w: World) {
    && w.tickets == |Begins(es)|
    && (forall c :: c in w.durable ==> HandedIn(es, c))
    && (forall c :: c in w.disk.wal ==> HandedIn(es, c))
    && (forall c :: c in Pending(w) ==> HandedIn(es, c))
  }

  lemma BeginsSnoc(es: seq<Event>, e: Event)
    ensures Begins(es + [e]) == Begins(es) + if IsBegin(e) then [e] else []
  {
    assert (es + [e])[..|es|] == es;
  }

  lemma StillHandedIn(es: seq<Event>, e: Event, c: Commit)
    requires HandedIn(es, c)
    ensures HandedIn(es + [e], c)
  {
    BeginsSnoc(es, e);
  }

  lemma EnqueueHandsIn(es: seq<Event>, w: World, e: Event)
    requires AsHandedIn(es, w) && Enabled(w, e) && e.Enqueue?
    ensures AsHandedIn(es + [e], After(w, e))
  {
    hide Begins;
    BeginsSnoc(es, e);
    forall c | HandedIn(es, c) ensures HandedIn(es + [e], c) {
      StillHandedIn(es, e, c);
    }
  }

  lemma StepHandsIn(es: seq<Event>, w: World, e: Event)
    requires AsHandedIn(es, w) && Enabled(w, e)
    ensures AsHandedIn(es + [e], After(w, e))
  {
    if e.Enqueue? {
      EnqueueHandsIn(es, w, e);
    } else {
      hide Begins, HandedIn, ReplayLive, Open, Tell, CheckpointChunk, DrainAll, RestoreAll;
      BeginsSnoc(es, e);
      forall c | HandedIn(es, c) ensures HandedIn(es + [e], c) {
        StillHandedIn(es, e, c);
      }
      if e.Reopen? {
        NothingPending(w, e);
      }
    }
  }

  lemma NothingPending(w: World, e: Event)
    requires Enabled(w, e) && e.Reopen?
    ensures Pending(After(w, e)) == []
  {
    hide ReplayLive, Rebuild, MaxVersion;
  }

  lemma {:induction false} RunHandsIn(before: seq<Event>, w: World, es: seq<Event>, r: World)
    requires AsHandedIn(before, w) && Run(w, es, r)
    ensures AsHandedIn(before + es, r)
    decreases es
  {
    hide AsHandedIn, Enabled, After;
    if es == [] {
      assert before + es == before;
    } else {
      StepHandsIn(before, w, es[0]);
      RunHandsIn(before + [es[0]], After(w, es[0]), es[1..], r);
      assert before + es == (before + [es[0]]) + es[1..];
    }
  }

  /**
   * In every run each logged, pending or durable commit carries exactly what its committer handed in,
   * and the tickets number the commits begun.
   */
  lemma LogHoldsWhatWasHandedIn(es: seq<Event>, w: World)
    requires Run(INITIAL, es, w)
    ensures AsHandedIn(es, w)
  {
    hide AsHandedIn, Run;
    NewHandsIn();
    RunHandsIn([], INITIAL, es, w);
    assert [] + es == es;
  }

  lemma NewHandsIn()
    ensures AsHandedIn([], INITIAL)
  {
  }

  // ---------------------------------------------------------------- what a flush does to the maps

  /** The maps after applying changes, key by key: the last write there, or what was there before. */
  ghost predicate Written(before: Db, cs: seq<Change>, after: Db) {
    forall n, k :: At(after, n, k) == Overlay(At(before, n, k), LastWrite(cs, n, k))
  }

  lemma AppliedIsWritten(before: Db, cs: seq<Change>, after: Db)
    requires Same(after, ApplyAll(before, cs))
    ensures Written(before, cs, after)
  {
    hide ApplyAll, LastWrite;
    forall n, k ensures At(after, n, k) == Overlay(At(before, n, k), LastWrite(cs, n, k)) {
      ApplyAllAt(before, cs, n, k);
    }
  }

  /** A successful flush writes the changes of the pending commits, in order, into the maps. */
  lemma FlushWrites(w: World)
    requires Enabled(w, FlushOk)
    ensures After(w, FlushOk).memory.Some?
    ensures Written(ContentsOf(w.memory.value.live), Changes(Records(Pending(w))), ContentsOf(After(w, FlushOk).memory.value.live))
  {
    hide ApplyAllLive, ApplyAll, ContentsOf, Changes, Records, Tell, Written;
    var m := w.memory.value;
    LiveContents(m.live, Changes(Records(m.queue.pending)), m.hasCheckpoint);
    AppliedIsWritten(ContentsOf(m.live), Changes(Records(m.queue.pending)), ContentsOf(After(w, FlushOk).memory.value.live));
  }

  lemma RunOne(w: World, e: Event, es: seq<Event>, r: World)
    requires Run(w, [e] + es, r)
    ensures Enabled(w, e) && Run(After(w, e), es, r)
  {
    hide Enabled, After;
    assert ([e] + es)[0] == e && ([e] + es)[1..] == es;
  }

  lemma RunNone(w: World, r: World)
    requires Run(w, [], r)
    ensures r == w
  {
  }

  /** A commit alone in its batch, up to the end of a successful flush. */
  lemma Committed(w: World, txId: nat, changes: seq<Change>, timestamp: int, r: World)
    requires Reachable(w) && w.memory.Some? && Pending(w) == []
    requires Run(w, [Enqueue(txId, changes, timestamp), FlushOk], r)
    ensures r.memory.Some? && Written(ContentsOf(w.memory.value.live), changes, ContentsOf(r.memory.value.live))
    ensures w.tickets in r.outcomes && r.outcomes[w.tickets].Durable? && w.tickets !in w.outcomes
    ensures Reachable(r) && Pending(r) == []
  {
    hide Run, After, Enabled, Written, Reachable, ContentsOf, Changes, Records;
    var e := Enqueue(txId, changes, timestamp);
    assert [e, FlushOk] == [e] + [FlushOk] && [FlushOk] == [FlushOk] + [];
    RunOne(w, e, [FlushOk], r);
    var u := After(w, e);
    RunOne(u, FlushOk, [], r);
    RunNone(After(u, FlushOk), r);
    Queued(w, txId, changes, timestamp);
    FlushWrites(u);
    ReachesBy(w, [e, FlushOk], r);
    ReachesBy(w, [e], u);
    FlushDecides(u, FlushOk);
    TicketIsNew(w);
  }

  lemma Queued(w: World, txId: nat, changes: seq<Change>, timestamp: int)
    requires w.memory.Some? && Pending(w) == [] && Enabled(w, Enqueue(txId, changes, timestamp))
    ensures var u := After(w, Enqueue(txId, changes, timestamp));
            && u.memory.Some? && u.memory.value.live == w.memory.value.live && u.outcomes == w.outcomes
            && Changes(Records(Pending(u))) == changes && w.tickets in Tickets(Pending(u))
            && Run(w, [Enqueue(txId, changes, timestamp)], u)
  {
    hide Changes, Records, Tickets, Enabled, Run;
    OnlyOnePending(w, txId, changes, timestamp);
    hide After, Pending;
    var e := Enqueue(txId, changes, timestamp);
    var c := Pending(After(w, e))[0];
    OneRecord(c);
    OneTicket(c);
    OneStep(w, e);
  }

  lemma OnlyOnePending(w: World, txId: nat, changes: seq<Change>, timestamp: int)
    requires w.memory.Some? && Pending(w) == [] && Enabled(w, Enqueue(txId, changes, timestamp))
    ensures var u := After(w, Enqueue(txId, changes, timestamp));
            && u.memory.Some? && u.memory.value.live == w.memory.value.live && u.outcomes == w.outcomes
            && |Pending(u)| == 1 && Pending(u) == [Pending(u)[0]]
            && Pending(u)[0].ticket == w.tickets && Pending(u)[0].record.changes == changes
  {
    hide Changes, Records, Tickets, Run;
  }

  lemma OneTicket(c: Commit)
    ensures c.ticket in Tickets([c])
  {
    assert c in [c];
  }

  lemma OneStep(w: World, e: Event)
    requires Enabled(w, e)
    ensures Run(w, [e], After(w, e))
  {
    hide Enabled, After;
    assert [e][1..] == [];
  }

  lemma OneRecord(c: Commit)
    ensures Changes(Records([c])) == c.record.changes
  {
    assert Records([c]) == [c.record] && [c.record][..0] == [];
  }

  lemma TicketIsNew(w: World)
    requires Reachable(w)
    ensures w.tickets !in w.outcomes
  {
    hide Reachable, Inv, OrderInv, Tickets;
    ReachableKeeps(w);
    assert w.tickets !in Begun(w);
  }

  lemma {:induction false} RunJoins(w: World, es: seq<Event>, u: World, fs: seq<Event>, r: World)
    requires Run(w, es, u) && Run(u, fs, r)
    ensures Run(w, es + fs, r)
    decreases es
  {
    hide Enabled, After;
    if es == [] {
      assert es + fs == fs;
    } else {
      RunJoins(After(w, es[0]), es[1..], u, fs, r);
      assert (es + fs)[0] == es[0] && (es + fs)[1..] == es[1..] + fs;
    }
  }

  lemma ReachesBy(w: World, fs: seq<Event>, r: World)
    requires Reachable(w) && Run(w, fs, r)
    ensures Reachable(r)
  {
    hide Run;
    var es :| Run(INITIAL, es, w);
    RunJoins(INITIAL, es, w, fs, r);
  }

  /**
   * A commit takes effect. From any reachable store without a pending batch, a commit that is flushed
   * with a successful sync is reported durable, and the maps hold at every key the last change it was
   * given there, or else what they held before.
   */
  lemma CommitTakesEffect(w: World, txId: nat, changes: seq<Change>, timestamp: int, r: World)
    requires Reachable(w) && w.memory.Some? && Pending(w) == []
    requires Run(w, [Enqueue(txId, changes, timestamp), FlushOk], r)
    ensures r.memory.Some? && w.tickets in r.outcomes && r.outcomes[w.tickets].Durable? && w.tickets !in w.outcomes
    ensures forall n, k :: At(ContentsOf(r.memory.value.live), n, k)
                        == Overlay(At(ContentsOf(w.memory.value.live), n, k), LastWrite(changes, n, k))
  {
    hide Run, Reachable, ContentsOf, LastWrite;
    Committed(w, txId, changes, timestamp, r);
  }

  /** What a consistent store that is up holds is the fold of its durable commits. */
  lemma LiveIsFold(w: World)
    requires Reachable(w) && w.memory.Some?
    ensures Same(ContentsOf(w.memory.value.live), Fold(w.durable))
  {
    hide Reachable, TicketInv, OrderInv, GoodHeader, Same, JournalInv, PhaseInv, SlotInv, ContentsOf, Fold;
    ReachableKeeps(w);
  }

  /** The same holds after a crash at once afterwards, whatever it leaves, and opening again. */
  lemma CommitSurvives(w: World, txId: nat, changes: seq<Change>, timestamp: int,
                       kept: nat, p: Slot, s: Slot, p': Slot, s': Slot, r: World)
    requires Reachable(w) && w.memory.Some? && Pending(w) == []
    requires Run(w, [Enqueue(txId, changes, timestamp), FlushOk] + [Crash(kept, p, s), Reopen(p', s')], r)
    ensures r.memory.Some?
    ensures forall n, k :: At(ContentsOf(r.memory.value.live), n, k)
                        == Overlay(At(ContentsOf(w.memory.value.live), n, k), LastWrite(changes, n, k))
  {
    hide Run, After, Enabled, Reachable, ContentsOf, LastWrite, Fold, Open;
    var u := Halfway(w, [Enqueue(txId, changes, timestamp), FlushOk], [Crash(kept, p, s), Reopen(p', s')], r);
    Committed(w, txId, changes, timestamp, u);
    LiveIsFold(u);
    CrashedAndOpened(u, kept, p, s, p', s', r);
  }

  lemma {:induction false} Halfway(w: World, es: seq<Event>, fs: seq<Event>, r: World) returns (u: World)
    requires Run(w, es + fs, r)
    ensures Run(w, es, u) && Run(u, fs, r)
    decreases es
  {
    hide Enabled, After;
    if es == [] {
      u := w;
      assert es + fs == fs;
    } else {
      assert (es + fs)[0] == es[0] && (es + fs)[1..] == es[1..] + fs;
      u := Halfway(After(w, es[0]), es[1..], fs, r);
    }
  }

  /** Without a pending batch a crash and opening again give back the same entries. */
  lemma CrashedAndOpened(u: World, kept: nat, p: Slot, s: Slot, p': Slot, s': Slot, r: World)
    requires Reachable(u) && u.memory.Some? && Pending(u) == []
    requires Run(u, [Crash(kept, p, s), Reopen(p', s')], r)
    ensures r.memory.Some? && Same(ContentsOf(r.memory.value.live), Fold(u.durable))
  {
    hide Run, After, Enabled, Reachable, ContentsOf, Fold, Open, Same;
    var c, o := Crash(kept, p, s), Reopen(p', s');
    assert [c, o] == [c] + [o] && [o] == [o] + [];
    RunOne(u, c, [o], r);
    RunOne(After(u, c), o, [], r);
    RunNone(After(After(u, c), o), r);
    Opened(u, kept, p, s, p', s');
    CrashRecovery(u, kept, p, s);
    assert Pending(u)[..kept - u.disk.synced] == [] && u.durable + [] == u.durable;
  }

  lemma Opened(u: World, kept: nat, p: Slot, s: Slot, p': Slot, s': Slot)
    requires Enabled(u, Crash(kept, p, s)) && Enabled(After(u, Crash(kept, p, s)), Reopen(p', s'))
    ensures After(After(u, Crash(kept, p, s)), Reopen(p', s')).memory == Open(u.disk.chunks, p, s, u.disk.wal[..kept])
  {
    hide Open;
  }

  /**
   * End to end. After any run, any crash and opening again, the maps hold at every key the last change
   * handed in with a surviving commit: the commits that survive carry what was handed in, every one
   * reported durable is among them, and none reported not durable.
   */
  lemma RecoveredAsHandedIn(es: seq<Event>, w: World, kept: nat, p: Slot, s: Slot) returns (survivors: seq<Commit>)
    requires Run(INITIAL, es, w) && Enabled(w, Crash(kept, p, s))
    ensures forall c :: c in survivors ==> HandedIn(es, c)
    ensures forall t :: t in w.outcomes ==> (w.outcomes[t].Durable? <==> t in Tickets(survivors))
    ensures w.disk.synced <= kept <= w.disk.synced + |Pending(w)| && survivors == w.durable + Pending(w)[..kept - w.disk.synced]
    ensures var store := Open(w.disk.chunks, p, s, w.disk.wal[..kept]);
            && store.Some?
            && forall n, k :: At(ContentsOf(store.value.live), n, k)
                           == Overlay(None, LastWrite(Changes(Records(survivors)), n, k))
  {
    hide Run, Enabled, ContentsOf, LastWrite, Open, HandedIn, Changes, Records, Tickets, ApplyAll;
    assert Reachable(w);
    CrashRecovery(w, kept, p, s);
    LogHoldsWhatWasHandedIn(es, w);
    CrashKeepsPart(w, kept, p, s);
    survivors := w.durable + Pending(w)[..kept - w.disk.synced];
    var store := Open(w.disk.chunks, p, s, w.disk.wal[..kept]);
    AppliedIsWritten(map[], Changes(Records(survivors)), ContentsOf(store.value.live));
  }

  lemma CrashKeepsPart(w: World, kept: nat, p: Slot, s: Slot)
    requires Enabled(w, Crash(kept, p, s))
    ensures w.disk.synced <= kept <= |w.disk.wal|
  {
  }

  // ---------------------------------------------------------------- the other events

  /** Nothing else is needed to begin a commit, open a map, flush, or start a checkpoint. */
  lemma AlwaysPossible(w: World, txId: nat, changes: seq<Change>, timestamp: int, n: Name)
    requires Up(w)
    ensures Enabled(w, Enqueue(txId, changes, timestamp)) && Enabled(w, PrepareFails) && Enabled(w, AppendFails)
    ensures Enabled(w, OpenMap(n))
    ensures w.memory.value.queue.leader ==> Enabled(w, FlushOk) && Enabled(w, FlushFails)
    ensures !w.memory.value.queue.leader ==> Enabled(w, AppendChunk)
    ensures After(w, Enqueue(txId, changes, timestamp)).memory.Some?
    ensures Enabled(After(w, Enqueue(txId, changes, timestamp)), FlushOk)
  {
  }

  /** A crash may keep any part of the unsynced log and any value a slot may hold. */
  lemma EveryCrash(w: World, kept: nat, p: Slot, s: Slot)
    requires w.memory.Some? && w.disk.synced <= kept <= |w.disk.wal| && p in w.disk.primary && s in w.disk.shadow
    ensures Enabled(w, Crash(kept, p, s))
  {
  }

  /** Opening a name creates an empty map if there is none, and changes nothing else. */
  lemma OpenMapOpens(w: World, n: Name)
    requires Enabled(w, OpenMap(n))
    ensures var before, r := ContentsOf(w.memory.value.live), After(w, OpenMap(n));
            && r.memory.Some? && ContentsOf(r.memory.value.live) == (if n in before then before else before[n := map[]])
            && r == w.(memory := Some(w.memory.value.(live := r.memory.value.live)))
  {
  }

  /** Every commit begun spends a version and a ticket, and a refused one is told so. */
  lemma BeginSpends(w: World, e: Event)
    requires Enabled(w, e) && IsBegin(e)
    ensures var r := After(w, e);
            && r.memory.Some? && r.memory.value.nextVersion == w.memory.value.nextVersion + 1 && r.tickets == w.tickets + 1
            && (!e.Enqueue? ==> w.tickets in r.outcomes && r.outcomes[w.tickets].NotDurable? && r.disk == w.disk)
  {
  }

  /** What a checkpoint leaves: the same entries, and an empty log if it completes and the log is cleared. */
  lemma CheckpointLeaves(w: World, k: Fault, cleared: bool, r: World)
    requires Reachable(w) && Up(w) && !w.memory.value.queue.leader
    requires Run(w, CheckpointEvents(k, cleared), r)
    ensures r.memory.Some? && ContentsOf(r.memory.value.live) == ContentsOf(w.memory.value.live)
    ensures r.disk.wal == if k == NO_FAULT && cleared then [] else w.disk.wal
    ensures r.durable == w.durable && r.outcomes == w.outcomes
    ensures k == NO_FAULT ==> forall n :: n in r.memory.value.live ==> r.memory.value.live[n].journal == EmptyJournal(true)
    ensures k < NO_FAULT ==> forall n :: n in r.memory.value.live ==>
              && n in w.memory.value.live
              && r.memory.value.live[n].journal == w.memory.value.live[n].journal.(enabled := true)
  {
    hide Run, Reachable, CheckpointEvents, Inv, CheckpointChunk, DrainAll, RestoreAll, SwitchedDisk, ContentsOf;
    ReachableKeeps(w);
    var m := w.memory.value;
    var chunk := CheckpointChunk(m.live, m.checkpointed, !m.hasCheckpoint, m.version + 1, m.header.last);
    CheckpointGives(w, k, cleared, chunk, DrainAll(m.live));
    OneResult(w, CheckpointEvents(k, cleared), r, Checkpointed(w, m, k, cleared, chunk, DrainAll(m.live)));
    DrainedOrRestored(m.live);
    SlotsOnly(w.disk.(chunks := w.disk.chunks + [chunk]), Header(m.version + 1, Some(|w.disk.chunks|)), k);
  }

  lemma SlotsOnly(d: Disk, h: Header, k: Fault)
    ensures SwitchedDisk(d, h, k).wal == d.wal
  {
  }

  lemma DrainedOrRestored(live: Live)
    ensures ContentsOf(DrainAll(live)) == ContentsOf(live) == ContentsOf(RestoreAll(DrainAll(live), live))
    ensures forall n :: n in DrainAll(live) ==> DrainAll(live)[n].journal == EmptyJournal(true)
    ensures forall n :: n in RestoreAll(DrainAll(live), live) ==>
              && n in live && RestoreAll(DrainAll(live), live)[n].journal == live[n].journal.(enabled := true)
  {
    assert ContentsOf(DrainAll(live)) == ContentsOf(live);
    assert ContentsOf(RestoreAll(DrainAll(live), live)) == ContentsOf(live);
  }

  lemma {:induction false} OneResult(w: World, es: seq<Event>, r: World, s: World)
    requires Run(w, es, r) && Run(w, es, s)
    ensures r == s
    decreases es
  {
    hide Enabled, After;
    if es != [] {
      OneResult(After(w, es[0]), es[1..], r, s);
    }
  }
}
