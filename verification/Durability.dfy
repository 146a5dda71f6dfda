/**
 * The durable store as a state machine: commits queue behind a leader who syncs them as one
 * batch, a failed sync rolls the log back, checkpoints append a chunk, switch two header
 * slots and clear the log, and a crash may fall between any two of these steps.
 */
module Durability {
  import opened Bytes
  import opened SortedEntries
  import opened ChangeLog
  import opened MapJournal
  import opened Checkpoints

  datatype Header = Header(version: nat, last: Option<nat>)

  /** A header record on disk, or bytes that do not decode to one. */
  datatype Slot = Bad | Good(header: Header)

  /** A commit; the ticket tells it apart from every other commit of every run. */
  datatype Commit = Commit(ticket: nat, record: Record)

  /**
   * What a crash leaves. A slot that was written but not synced holds one of several values.
   * The first `synced` frames of the log survive; the others may or may not.
   */
  datatype Disk = Disk(chunks: seq<Chunk>, primary: set<Slot>, shadow: set<Slot>, wal: seq<Commit>, synced: nat)

  datatype Queue = Queue(pending: seq<Commit>, leader: bool, batchStart: Option<nat>)

  /** Where a checkpoint stands; `before` are the maps as they were when it drained their journals. */
  datatype Phase =
    | Idle
    | Appended(header: Header, before: Live)
    | ShadowWritten(header: Header, before: Live)
    | ShadowSynced(header: Header, before: Live)
    | PrimaryWritten(header: Header, before: Live)
    | Switched

  datatype Memory = Memory(
    live: Live,
    checkpointed: set<Name>,
    hasCheckpoint: bool,
    header: Header,
    version: nat,
    nextVersion: nat,
    queue: Queue,
    phase: Phase)

  datatype Outcome = Durable | NotDurable

  /**
   * A store, up or down, with the history the proof speaks about: the commits that are durable,
   * in order, what each committer was told, who was still waiting at a crash, and the next ticket.
   */
  datatype World = World(
    disk: Disk,
    memory: Option<Memory>,
    durable: seq<Commit>,
    outcomes: map<nat, Outcome>,
    interrupted: set<nat>,
    tickets: nat)

  function Records(cs: seq<Commit>): (rs: seq<Record>)
    ensures |rs| == |cs|
    ensures forall i :: 0 <= i < |cs| ==> rs[i] == cs[i].record
  {
    seq(|cs|, i requires 0 <= i < |cs| => cs[i].record)
  }

  /** The store after the given commits, starting from nothing. */
  function Fold(cs: seq<Commit>): (db: Db) {
    Replay(map[], Records(cs))
  }

  // ---------------------------------------------------------------- applying changes to live maps

  /** One change to the live maps; a new map journals or not as told. */
  function ApplyLive(live: Live, c: Change, journaling: bool): (r: Live) {
    var s := if c.name in live then live[c.name] else MapState(map[], EmptyJournal(journaling));
    live[c.name := ChangeState(s, c.key, c.value)]
  }

  function ApplyAllLive(live: Live, cs: seq<Change>, journaling: bool): (r: Live) {
    if cs == [] then live
    else ApplyLive(ApplyAllLive(live, cs[..|cs| - 1], journaling), cs[|cs| - 1], journaling)
  }

  function ReplayLive(live: Live, log: seq<Commit>, journaling: bool): (r: Live) {
    ApplyAllLive(live, Changes(Records(log)), journaling)
  }

  // ---------------------------------------------------------------- opening

  /** The header `open` settles on: the newer valid one, the primary on a tie. */
  function ChooseHeader(primary: Slot, shadow: Slot): (h: Option<Header>) {
    match (primary, shadow)
    case (Good(p), Good(s)) => if s.version > p.version then Some(s) else Some(p)
    case (Good(p), Bad) => Some(p)
    case (Bad, Good(s)) => Some(s)
    case (Bad, Bad) => None
  }

  function MaxVersion(from: nat, log: seq<Commit>): (v: nat)
    ensures v >= from
    ensures forall c :: c in log ==> c.record.version <= v
  {
    if log == [] then from
    else
      var c := log[|log| - 1];
      var v := MaxVersion(from, log[..|log| - 1]);
      if c.record.version > v then c.record.version else v
  }

  function LoadMaps(image: Db): (live: Live) {
    map n | n in image :: MapState(image[n], EmptyJournal(true))
  }

  /** Opens a disk as a crash left it: choose a header, rebuild its chain, replay the log. */
  function Open(chunks: seq<Chunk>, primary: Slot, shadow: Slot, wal: seq<Commit>): (m: Option<Memory>) {
    match ChooseHeader(primary, shadow)
    case None => None
    case Some(h) =>
      match Rebuild(chunks, h.last)
      case None => None
      case Some(image) =>
        var v := MaxVersion(h.version, wal);
        Some(Memory(ReplayLive(LoadMaps(image), wal, true), image.Keys, h.last.Some?, h, v, v,
                    Queue([], false, None), Idle))
  }

  // ---------------------------------------------------------------- events

  datatype Event =
    | OpenMap(name: Name)
    | Enqueue(txId: nat, changes: seq<Change>, timestamp: int)
    | PrepareFails
    | AppendFails
    | FlushOk
    | FlushFails
    | AppendChunk
    | WriteShadow
    | SyncShadow
    | WritePrimary
    | SyncPrimary
    | ClearWal
    | ClearWalFails
    | CheckpointFails
    | Crash(kept: nat, primary: Slot, shadow: Slot)
    | Reopen(primary: Slot, shadow: Slot)

  ghost predicate Enabled(w: World, e: Event) {
    match e
    case Crash(k, p, s) =>
      w.memory.Some? && w.disk.synced <= k <= |w.disk.wal| && p in w.disk.primary && s in w.disk.shadow
    case Reopen(p, s) => w.memory.None? && p in w.disk.primary && s in w.disk.shadow
    case _ =>
      w.memory.Some? &&
      var m := w.memory.value;
      match e
      // Committers hold the checkpoint gate for reading, a checkpoint holds it for writing.
      case OpenMap(_) => m.phase.Idle?
      case Enqueue(_, _, _) => m.phase.Idle?
      case PrepareFails => m.phase.Idle?
      case AppendFails => m.phase.Idle?
      case FlushOk => m.queue.leader
      case FlushFails => m.queue.leader
      case AppendChunk => m.phase.Idle? && !m.queue.leader
      case WriteShadow => m.phase.Appended?
      case SyncShadow => m.phase.ShadowWritten?
      case WritePrimary => m.phase.ShadowSynced?
      case SyncPrimary => m.phase.PrimaryWritten?
      case ClearWal => m.phase.Switched?
      case ClearWalFails => m.phase.Switched?
      case CheckpointFails => m.phase.Appended? || m.phase.ShadowWritten? || m.phase.ShadowSynced? || m.phase.PrimaryWritten?
      case _ => false
  }

  function EnqueueStep(w: World, m: Memory, txId: nat, changes: seq<Change>, timestamp: int): (r: World) {
    var version := m.nextVersion + 1;
    var c := Commit(w.tickets, Record(txId, version, changes, timestamp));
    var start := if m.queue.pending == [] then Some(|w.disk.wal|) else m.queue.batchStart;
    w.(disk := w.disk.(wal := w.disk.wal + [c]),
       memory := Some(m.(nextVersion := version, queue := Queue(m.queue.pending + [c], true, start))),
       tickets := w.tickets + 1)
  }

  /** Tells every commit of a batch its outcome. */
  function Tell(outcomes: map<nat, Outcome>, cs: seq<Commit>, o: Outcome): (r: map<nat, Outcome>) {
    if cs == [] then outcomes else Tell(outcomes, cs[..|cs| - 1], o)[cs[|cs| - 1].ticket := o]
  }

  function FlushOkStep(w: World, m: Memory): (r: World) {
    var batch := m.queue.pending;
    w.(disk := w.disk.(synced := |w.disk.wal|),
       memory := Some(m.(live := ReplayLive(m.live, batch, m.hasCheckpoint),
                         version := if batch == [] then m.version else batch[|batch| - 1].record.version,
                         queue := Queue([], false, None))),
       durable := w.durable + batch,
       outcomes := Tell(w.outcomes, batch, Durable))
  }

  function FlushFailsStep(w: World, m: Memory): (r: World) {
    var start := if m.queue.batchStart.Some? then m.queue.batchStart.value else 0;
    var wal := if start <= |w.disk.wal| then w.disk.wal[..start] else w.disk.wal;
    w.(disk := w.disk.(wal := wal, synced := |wal|),
       memory := Some(m.(queue := Queue([], false, None))),
       outcomes := Tell(w.outcomes, m.queue.pending, NotDurable))
  }

  function AppendChunkStep(w: World, m: Memory): (r: World) {
    var chunk := CheckpointChunk(m.live, m.checkpointed, !m.hasCheckpoint, m.version + 1, m.header.last);
    w.(disk := w.disk.(chunks := w.disk.chunks + [chunk]),
       memory := Some(m.(live := DrainAll(m.live),
                         phase := Appended(Header(m.version + 1, Some(|w.disk.chunks|)), m.live))))
  }

  function RestoreAll(live: Live, before: Live): (r: Live) {
    map n | n in live ::
      if n in before then live[n].(journal := Merge(before[n].journal, live[n].journal)) else live[n]
  }

  function After(w: World, e: Event): (r: World)
    requires Enabled(w, e)
  {
    match e
    case Crash(k, p, s) =>
      var m := w.memory.value;
      w.(disk := Disk(w.disk.chunks, {p}, {s}, w.disk.wal[..k], k),
         memory := None,
         durable := w.durable + w.disk.wal[w.disk.synced..k],
         interrupted := w.interrupted + set c | c in m.queue.pending :: c.ticket)
    case Reopen(p, s) => w.(memory := Open(w.disk.chunks, p, s, w.disk.wal))
    case OpenMap(n) =>
      var m := w.memory.value;
      if n in m.live then w
      else w.(memory := Some(m.(live := m.live[n := MapState(map[], EmptyJournal(m.hasCheckpoint))])))
    case Enqueue(txId, changes, timestamp) => EnqueueStep(w, w.memory.value, txId, changes, timestamp)
    case PrepareFails =>
      var m := w.memory.value;
      w.(memory := Some(m.(nextVersion := m.nextVersion + 1)),
         outcomes := w.outcomes[w.tickets := NotDurable], tickets := w.tickets + 1)
    case AppendFails =>
      // The partial frame is cut off again; the batch start is already noted if the queue was empty.
      var m := w.memory.value;
      var start := if m.queue.pending == [] then Some(|w.disk.wal|) else m.queue.batchStart;
      w.(memory := Some(m.(nextVersion := m.nextVersion + 1, queue := m.queue.(batchStart := start))),
         outcomes := w.outcomes[w.tickets := NotDurable], tickets := w.tickets + 1)
    case FlushOk => FlushOkStep(w, w.memory.value)
    case FlushFails => FlushFailsStep(w, w.memory.value)
    case AppendChunk => AppendChunkStep(w, w.memory.value)
    case WriteShadow =>
      var m := w.memory.value;
      w.(disk := w.disk.(shadow := w.disk.shadow + {Good(m.phase.header)}),
         memory := Some(m.(phase := ShadowWritten(m.phase.header, m.phase.before))))
    case SyncShadow =>
      var m := w.memory.value;
      w.(disk := w.disk.(shadow := {Good(m.phase.header)}),
         memory := Some(m.(phase := ShadowSynced(m.phase.header, m.phase.before))))
    case WritePrimary =>
      var m := w.memory.value;
      w.(disk := w.disk.(primary := w.disk.primary + {Good(m.phase.header)}),
         memory := Some(m.(phase := PrimaryWritten(m.phase.header, m.phase.before))))
    case SyncPrimary =>
      var m := w.memory.value;
      var h := m.phase.header;
      w.(disk := w.disk.(primary := {Good(h)}),
         memory := Some(m.(header := h, version := h.version,
                           nextVersion := if m.nextVersion < h.version then h.version else m.nextVersion,
                           hasCheckpoint := true, checkpointed := m.live.Keys, phase := Switched)))
    case ClearWal =>
      var m := w.memory.value;
      w.(disk := w.disk.(wal := [], synced := 0), memory := Some(m.(phase := Idle)))
    case ClearWalFails =>
      var m := w.memory.value;
      w.(memory := Some(m.(phase := Idle)))
    case CheckpointFails =>
      var m := w.memory.value;
      w.(memory := Some(m.(live := RestoreAll(m.live, m.phase.before), phase := Idle)))
  }

  /** A new file: the primary slot holds an empty header, the shadow slot nothing. */
  const INITIAL := World(
    Disk([], {Good(Header(0, None))}, {Bad}, [], 0),
    Some(Memory(map[], {}, false, Header(0, None), 0, 0, Queue([], false, None), Idle)),
    [], map[], {}, 0)

  ghost predicate Run(w: World, es: seq<Event>, r: World)
    decreases es
  {
    if es == [] then w == r else Enabled(w, es[0]) && Run(After(w, es[0]), es[1..], r)
  }
}
