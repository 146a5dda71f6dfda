/**
 * Runs of map operations and checkpoints: opening, putting, removing, clearing, renaming and
 * dropping named maps. When does the checkpoint chain rebuild what was checkpointed?
 */
module CheckpointRuns {
  import opened Bytes
  import opened SortedEntries
  import opened ChangeLog
  import opened MapJournal
  import opened Checkpoints

  /**
   * A store between checkpoints. `started` is, for each live map, the contents its journal
   * started from; `saved` is the store as of the last checkpoint. Both exist for the proof.
   */
  datatype Store = Store(
    live: Live,
    checkpointed: set<Name>,
    hasCheckpoint: bool,
    chunks: seq<Chunk>,
    last: Option<nat>,
    version: nat,
    started: Db,
    saved: Db)

  datatype Op =
    | OpenMap(name: Name)
    | ChangeKey(name: Name, key: Key, value: Option<Value>)
    | ClearMap(name: Name)
    | RenameMap(name: Name, to: Name)
    | RemoveMap(name: Name)
    | Checkpoint
    | FailedCheckpoint

  const INITIAL := Store(map[], {}, false, [], None, 0, map[], map[])

  /** One operation; naming a map that is not there does nothing. */
  function Step(s: Store, op: Op): (r: Store) {
    match op
    case OpenMap(n) =>
      if n in s.live then s
      else s.(live := s.live[n := MapState(map[], EmptyJournal(s.hasCheckpoint))], started := s.started[n := map[]])
    case ChangeKey(n, k, v) =>
      if n in s.live then s.(live := s.live[n := ChangeState(s.live[n], k, v)]) else s
    case ClearMap(n) =>
      if n in s.live then s.(live := s.live[n := ClearState(s.live[n])]) else s
    case RenameMap(n, to) =>
      if n in s.live then
        s.(live := (s.live - {n})[to := s.live[n]],
           started := (s.started - {n})[to := MapAt(s.started, n)])
      else s
    case RemoveMap(n) => s.(live := s.live - {n}, started := s.started - {n})
    case Checkpoint =>
      s.(live := DrainAll(s.live), checkpointed := s.live.Keys, hasCheckpoint := true,
         chunks := s.chunks + [NextChunk(s)], last := Some(|s.chunks|), version := s.version + 1,
         started := ContentsOf(s.live), saved := ContentsOf(s.live))
    case FailedCheckpoint =>
      // The chunk may be on disk but no header points to it; journals are drained and put back.
      var live := if s.hasCheckpoint then s.live else EnableAll(s.live);
      s.(live := RestoreAll(live, TakeAll(live)), chunks := s.chunks + [NextChunk(s)])
  }

  /** Every map with its journal drained. */
  function TakeAll(live: Live): (r: Live) {
    map n | n in live :: live[n].(journal := EmptyJournal(live[n].journal.enabled))
  }

  /** The drained maps with the journals they had before put back. */
  function RestoreAll(before: Live, drained: Live): (r: Live) {
    map n | n in drained && n in before :: drained[n].(journal := Merge(before[n].journal, drained[n].journal))
  }

  function NextChunk(s: Store): (c: Chunk) {
    CheckpointChunk(s.live, s.checkpointed, !s.hasCheckpoint, s.version + 1, s.last)
  }

  function EnableAll(live: Live): (r: Live) {
    map n | n in live :: live[n].(journal := live[n].journal.(enabled := true))
  }

  function Run(ops: seq<Op>): (s: Store) {
    if ops == [] then INITIAL else Step(Run(ops[..|ops| - 1]), ops[|ops| - 1])
  }

  /** Draining all journals and putting them back leaves every map as it was. */
  lemma RestoreUndoesTake(live: Live)
    ensures RestoreAll(live, TakeAll(live)) == live
  {
    hide Merge;
    forall n | n in live ensures RestoreAll(live, TakeAll(live))[n] == live[n] {
      MergeNothing(live[n].journal);
    }
  }

  lemma MergeNothing(j: Journal)
    ensures Merge(j, EmptyJournal(j.enabled)) == j
  {
  }

  // ---------------------------------------------------------------- what every run keeps

  ghost predicate Inv(s: Store) {
    && (s.last.Some? ==> s.last.value < |s.chunks|)
    && (!s.hasCheckpoint ==> s.last.None? && s.checkpointed == {} && s.saved == map[])
    && s.started.Keys == s.live.Keys
    && (s.hasCheckpoint ==> forall n :: n in s.live ==> s.live[n].journal.enabled && Tracks(s.started[n], s.live[n]))
    && Rebuild(s.chunks, s.last).Some?
    && Rebuild(s.chunks, s.last).value.Keys == s.checkpointed
  }

  lemma MapStepInv(s: Store, op: Op)
    requires Inv(s) && (op.OpenMap? || op.ChangeKey? || op.ClearMap?)
    ensures Inv(Step(s, op))
  {
    hide ApplyJournal, Rebuild, Tracks, ChangeState, ClearState;
    match op
    case OpenMap(n) =>
      NewMapTracks(s.hasCheckpoint);
    case ChangeKey(n, k, v) =>
      if n in s.live && s.hasCheckpoint {
        MutationsTrack(s.started[n], s.live[n], k, v);
        StillEnabled(s.live[n], k, v);
      }
    case ClearMap(n) =>
      if n in s.live && s.hasCheckpoint {
        MutationsTrack(s.started[n], s.live[n], [], None);
        StillEnabled(s.live[n], [], None);
      }
  }

  lemma NewMapTracks(enabled: bool)
    ensures Tracks(map[], MapState(map[], EmptyJournal(enabled)))
  {
    hide ApplyJournal;
    EmptyKeeps(map[], enabled);
  }

  lemma StillEnabled(s: MapState, k: Key, v: Option<Value>)
    ensures ChangeState(s, k, v).journal.enabled == s.journal.enabled
    ensures ClearState(s).journal.enabled == s.journal.enabled
  {
  }

  lemma NameStepInv(s: Store, op: Op)
    requires Inv(s) && (op.RenameMap? || op.RemoveMap?)
    ensures Inv(Step(s, op))
  {
    hide Tracks, Rebuild;
  }

  lemma CheckpointStepInv(s: Store)
    requires Inv(s)
    ensures Inv(Step(s, Checkpoint))
  {
    hide ApplyJournal, Rebuild, CheckpointChunk;
    var r := Step(s, Checkpoint);
    var image := Rebuild(s.chunks, s.last).value;
    CheckpointRebuilds(s.chunks, s.last, image, s.live, !s.hasCheckpoint, s.version + 1);
    forall n | n in r.live ensures Tracks(r.started[n], r.live[n]) {
      EmptyKeeps(s.live[n].contents, true);
    }
  }

  lemma FailedStepInv(s: Store)
    requires Inv(s)
    ensures Inv(Step(s, FailedCheckpoint))
  {
    hide ApplyJournal, Rebuild, CheckpointChunk, Tracks, RestoreAll, TakeAll;
    RestoreUndoesTake(if s.hasCheckpoint then s.live else EnableAll(s.live));
    RebuildStable(s.chunks, [NextChunk(s)], s.last);
  }

  lemma StepInv(s: Store, op: Op)
    requires Inv(s)
    ensures Inv(Step(s, op))
  {
    hide Inv, Step;
    match op
    case OpenMap(_) => MapStepInv(s, op);
    case ChangeKey(_, _, _) => MapStepInv(s, op);
    case ClearMap(_) => MapStepInv(s, op);
    case RenameMap(_, _) => NameStepInv(s, op);
    case RemoveMap(_) => NameStepInv(s, op);
    case Checkpoint => CheckpointStepInv(s);
    case FailedCheckpoint => FailedStepInv(s);
  }

  lemma {:induction false} RunInv(ops: seq<Op>)
    ensures Inv(Run(ops))
  {
    if ops != [] {
      RunInv(ops[..|ops| - 1]);
      StepInv(Run(ops[..|ops| - 1]), ops[|ops| - 1]);
    }
  }

  /**
   * After any run, a checkpoint is read back exactly if and only if, for every map living under
   * a checkpointed name, the stored image and the contents its journal started from agree
   * wherever the journal is silent.
   */
  lemma CheckpointExactIff(ops: seq<Op>)
    ensures Inv(Run(ops))
    ensures var s, r := Run(ops), Step(Run(ops), Checkpoint);
            Rebuild(r.chunks, r.last) == Some(ContentsOf(s.live))
            <==> forall n :: n in s.live && n in s.checkpointed ==>
              AgreeOutside(Rebuild(s.chunks, s.last).value[n], s.started[n], s.live[n].journal)
  {
    hide ApplyJournal, Rebuild, CheckpointChunk, AgreeOutside;
    RunInv(ops);
    var s := Run(ops);
    var image := Rebuild(s.chunks, s.last).value;
    CheckpointRebuilds(s.chunks, s.last, image, s.live, !s.hasCheckpoint, s.version + 1);
    RebuiltExact(image, s.live);
    forall n | n in s.live && n in s.checkpointed
      ensures Tracks(image[n], s.live[n]) <==> AgreeOutside(image[n], s.started[n], s.live[n].journal)
    {
      ApplyAgrees(image[n], s.started[n], s.live[n].journal);
    }
  }

  // ---------------------------------------------------------------- runs that do not reuse names

  /** No map arrives under a checkpointed name it did not already have. */
  ghost predicate KeepsNames(s: Store, op: Op) {
    match op
    case OpenMap(n) => n in s.live || n !in s.checkpointed
    case RenameMap(n, to) => n in s.live ==> to == n || to !in s.checkpointed
    case _ => true
  }

  ghost predicate KeepsNamesRun(ops: seq<Op>) {
    ops == [] || (KeepsNamesRun(ops[..|ops| - 1]) && KeepsNames(Run(ops[..|ops| - 1]), ops[|ops| - 1]))
  }

  /** The chain rebuilds the last checkpoint, and journals of known maps start from it. */
  ghost predicate Exact(s: Store) {
    && Rebuild(s.chunks, s.last) == Some(s.saved)
    && forall n :: n in s.live && n in s.checkpointed ==> MapAt(s.started, n) == MapAt(s.saved, n)
  }

  lemma StepExact(s: Store, op: Op)
    requires Inv(s) && Exact(s) && KeepsNames(s, op)
    ensures Exact(Step(s, op))
  {
    hide ApplyJournal, Rebuild, CheckpointChunk;
    match op
    case Checkpoint =>
      CheckpointRebuilds(s.chunks, s.last, s.saved, s.live, !s.hasCheckpoint, s.version + 1);
      RebuiltExact(s.saved, s.live);
    case FailedCheckpoint =>
      RebuildStable(s.chunks, [NextChunk(s)], s.last);
    case _ =>
  }

  /**
   * In every run that reuses no checkpointed name, the base chunk and the deltas rebuild
   * exactly the map names and contents of the last checkpoint.
   */
  lemma {:induction false} RunExact(ops: seq<Op>)
    requires KeepsNamesRun(ops)
    ensures Inv(Run(ops)) && Exact(Run(ops))
  {
    hide KeepsNames, Step, Exact;
    RunInv(ops);
    if ops == [] {
      InitialExact();
    } else {
      RunExact(ops[..|ops| - 1]);
      StepExact(Run(ops[..|ops| - 1]), ops[|ops| - 1]);
    }
  }

  lemma InitialExact()
    ensures Exact(INITIAL)
  {
  }

  /** What is read back after the last checkpoint of such a run is the store as of that checkpoint. */
  lemma LastCheckpointRebuilt(ops: seq<Op>, later: seq<Op>)
    requires KeepsNamesRun(ops + [Checkpoint] + later)
    requires forall op :: op in later ==> op != Checkpoint
    ensures var r := Run(ops + [Checkpoint] + later);
            Rebuild(r.chunks, r.last) == Some(ContentsOf(Run(ops).live))
    decreases later
  {
    hide KeepsNames, Exact;
    var all := ops + [Checkpoint] + later;
    RunExact(all);
    SavedIs(ops, later);
    assert Exact(Run(all));
    ExactRebuild(Run(all));
  }

  lemma ExactRebuild(s: Store)
    requires Exact(s)
    ensures Rebuild(s.chunks, s.last) == Some(s.saved)
  {
  }

  lemma {:induction false} SavedIs(ops: seq<Op>, later: seq<Op>)
    requires forall op :: op in later ==> op != Checkpoint
    ensures Run(ops + [Checkpoint] + later).saved == ContentsOf(Run(ops).live)
  {
    hide Rebuild, CheckpointChunk, ChangeState, ClearState;
    var all := ops + [Checkpoint] + later;
    if later == [] {
      assert all[..|all| - 1] == ops;
    } else {
      var front := later[..|later| - 1];
      assert all[..|all| - 1] == ops + [Checkpoint] + front;
      assert later[|later| - 1] in later;
      assert forall op :: op in front ==> op in later;
      SavedIs(ops, front);
    }
  }

  /** Dropping a checkpointed map and opening its name again: the next delta revives the old entry. */
  lemma ReusedNameRevivesEntries(n: Name, k: Key, v: Value)
    ensures var ops := [OpenMap(n), ChangeKey(n, k, Some(v)), Checkpoint, RemoveMap(n), OpenMap(n)];
            var s, r := Run(ops), Step(Run(ops), Checkpoint);
            && ContentsOf(s.live) == map[n := map[]]
            && Rebuild(r.chunks, r.last) == Some(map[n := map[k := v]])
  {
    var s1 := Step(INITIAL, OpenMap(n));
    var s2 := Step(s1, ChangeKey(n, k, Some(v)));
    var s3 := Step(s2, Checkpoint);
    var s4 := Step(s3, RemoveMap(n));
    var s := Step(s4, OpenMap(n));
    RunFive(OpenMap(n), ChangeKey(n, k, Some(v)), Checkpoint, RemoveMap(n), OpenMap(n));
    assert ContentsOf(s2.live) == map[n := map[k := v]];
    assert NextChunk(s2) == Base(1, map[n := map[k := v]]);
    assert s3.chunks == [NextChunk(s2)] && s3.checkpointed == {n};
    assert s.live == map[n := MapState(map[], EmptyJournal(true))];
    RevivedByDelta(n, k, v, s);
  }

  lemma RunFive(a: Op, b: Op, c: Op, d: Op, e: Op)
    ensures Run([a, b, c, d, e]) == Step(Step(Step(Step(Step(INITIAL, a), b), c), d), e)
  {
    hide Step;
    assert [a, b, c, d, e][..4] == [a, b, c, d];
    assert [a, b, c, d][..3] == [a, b, c];
    assert [a, b, c][..2] == [a, b];
    assert [a, b][..1] == [a];
    assert [a][..0] == [];
    assert Run([a]) == Step(INITIAL, a);
    assert Run([a, b]) == Step(Run([a]), b);
    assert Run([a, b, c]) == Step(Run([a, b]), c);
    assert Run([a, b, c, d]) == Step(Run([a, b, c]), d);
  }

  lemma RevivedByDelta(n: Name, k: Key, v: Value, s: Store)
    requires s.live == map[n := MapState(map[], EmptyJournal(true))]
    requires s.hasCheckpoint && s.checkpointed == {n} && s.last == Some(0)
    requires s.chunks == [Base(1, map[n := map[k := v]])]
    ensures var r := Step(s, Checkpoint);
            Rebuild(r.chunks, r.last) == Some(map[n := map[k := v]])
  {
    var image: Db := map[n := map[k := v]];
    assert Rebuild(s.chunks, s.last) == Some(image);
    assert image.Keys == {n};
    CheckpointRebuilds(s.chunks, s.last, image, s.live, false, s.version + 1);
    EmptyKeeps(map[k := v], true);
    assert Rebuilt(image, s.live) == image;
  }

  // ---------------------------------------------------------------- what the operations do

  /** What each operation does to the named maps of a store. */
  ghost predicate Effect(before: Db, op: Op, after: Db) {
    match op
    case OpenMap(n) => after == if n in before then before else before[n := map[]]
    case ChangeKey(n, k, v) =>
      && after.Keys == before.Keys
      && forall m, x :: At(after, m, x) == if n in before && m == n && x == k then v else At(before, m, x)
    case ClearMap(n) => after == if n in before then before[n := map[]] else before
    case RenameMap(n, to) => after == if n in before then (before - {n})[to := before[n]] else before
    case RemoveMap(n) => after == before - {n}
    case Checkpoint => after == before
    case FailedCheckpoint => after == before
  }

  lemma ChangeEffect(s: Store, n: Name, k: Key, v: Option<Value>)
    ensures Effect(ContentsOf(s.live), ChangeKey(n, k, v), ContentsOf(Step(s, ChangeKey(n, k, v)).live))
  {
    hide ChangeState;
    var before, after := ContentsOf(s.live), ContentsOf(Step(s, ChangeKey(n, k, v)).live);
    forall m, x ensures At(after, m, x) == if n in before && m == n && x == k then v else At(before, m, x) {
      if n in s.live {
        ChangeSets(s.live[n], k, v, x);
      }
    }
  }

  lemma ClearEffect(s: Store, n: Name)
    ensures Effect(ContentsOf(s.live), ClearMap(n), ContentsOf(Step(s, ClearMap(n)).live))
  {
    hide ClearState;
    if n in s.live {
      ClearErases(s.live[n], map[]);
    }
    assert ContentsOf(Step(s, ClearMap(n)).live) == if n in s.live then ContentsOf(s.live)[n := map[]] else ContentsOf(s.live);
  }

  lemma OpenEffect(s: Store, n: Name)
    ensures Effect(ContentsOf(s.live), OpenMap(n), ContentsOf(Step(s, OpenMap(n)).live))
  {
    var db := ContentsOf(s.live);
    assert ContentsOf(Step(s, OpenMap(n)).live) == if n in db then db else db[n := map[]];
  }

  lemma RemoveEffect(s: Store, n: Name)
    ensures Effect(ContentsOf(s.live), RemoveMap(n), ContentsOf(Step(s, RemoveMap(n)).live))
  {
    assert ContentsOf(Step(s, RemoveMap(n)).live) == ContentsOf(s.live) - {n};
  }

  lemma RenameEffect(s: Store, n: Name, to: Name)
    ensures Effect(ContentsOf(s.live), RenameMap(n, to), ContentsOf(Step(s, RenameMap(n, to)).live))
  {
    var db := ContentsOf(s.live);
    assert ContentsOf(Step(s, RenameMap(n, to)).live) == if n in db then (db - {n})[to := db[n]] else db;
  }

  lemma CheckpointEffect(s: Store)
    ensures ContentsOf(Step(s, Checkpoint).live) == ContentsOf(s.live)
    ensures ContentsOf(Step(s, FailedCheckpoint).live) == ContentsOf(s.live)
  {
    hide Rebuild, CheckpointChunk, RestoreAll, TakeAll;
    RestoreUndoesTake(if s.hasCheckpoint then s.live else EnableAll(s.live));
  }

  /** Every operation has its effect on the live maps. */
  lemma StepEffect(s: Store, op: Op)
    ensures Effect(ContentsOf(s.live), op, ContentsOf(Step(s, op).live))
  {
    hide Step, ContentsOf;
    match op
    case OpenMap(n) => OpenEffect(s, n);
    case ChangeKey(n, k, v) => ChangeEffect(s, n, k, v);
    case ClearMap(n) => ClearEffect(s, n);
    case RenameMap(n, to) => RenameEffect(s, n, to);
    case RemoveMap(n) => RemoveEffect(s, n);
    case Checkpoint => CheckpointEffect(s);
    case FailedCheckpoint => CheckpointEffect(s);
  }

  /** What an operation did to the store is what the next checkpoint is read back as. */
  lemma EffectReadBack(ops: seq<Op>, op: Op)
    requires op != Checkpoint && KeepsNamesRun(ops + [op] + [Checkpoint])
    ensures var r := Run(ops + [op] + [Checkpoint]);
            Rebuild(r.chunks, r.last).Some? && Effect(ContentsOf(Run(ops).live), op, Rebuild(r.chunks, r.last).value)
  {
    hide Step, Effect, KeepsNamesRun;
    var upto := ops + [op];
    assert upto + [Checkpoint] + [] == ops + [op] + [Checkpoint];
    LastCheckpointRebuilt(upto, []);
    assert upto[..|ops|] == ops;
    StepEffect(Run(ops), op);
  }

  /** Clearing a map, renaming one and removing one, as the next checkpoint is read back. */
  lemma MapsReadBack(ops: seq<Op>, n: Name, to: Name)
    requires n in Run(ops).live
    ensures KeepsNamesRun(ops + [ClearMap(n)] + [Checkpoint]) ==>
              var r := Run(ops + [ClearMap(n)] + [Checkpoint]);
              Rebuild(r.chunks, r.last) == Some(ContentsOf(Run(ops).live)[n := map[]])
    ensures KeepsNamesRun(ops + [RenameMap(n, to)] + [Checkpoint]) ==>
              var r := Run(ops + [RenameMap(n, to)] + [Checkpoint]);
              && Rebuild(r.chunks, r.last).Some? && to in Rebuild(r.chunks, r.last).value
              && Rebuild(r.chunks, r.last).value[to] == Run(ops).live[n].contents
              && (to != n ==> n !in Rebuild(r.chunks, r.last).value)
    ensures KeepsNamesRun(ops + [RemoveMap(n)] + [Checkpoint]) ==>
              var r := Run(ops + [RemoveMap(n)] + [Checkpoint]);
              Rebuild(r.chunks, r.last) == Some(ContentsOf(Run(ops).live) - {n})
  {
    hide Step, Rebuild, KeepsNamesRun, Run;
    if KeepsNamesRun(ops + [ClearMap(n)] + [Checkpoint]) {
      EffectReadBack(ops, ClearMap(n));
    }
    if KeepsNamesRun(ops + [RenameMap(n, to)] + [Checkpoint]) {
      EffectReadBack(ops, RenameMap(n, to));
    }
    if KeepsNamesRun(ops + [RemoveMap(n)] + [Checkpoint]) {
      EffectReadBack(ops, RemoveMap(n));
    }
  }
}
