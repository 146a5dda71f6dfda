/**
 * Checkpoints: a full chunk first, then deltas that record the changed keys of known maps,
 * the whole of new maps and the names that went away. Opening a store reads the base and
 * replays the deltas.
 */
module Checkpoints {
  import opened Bytes
  import opened SortedEntries
  import opened ChangeLog
  import opened MapJournal

  /** What a delta says about one map: a new root, or a clear flag and changed keys. */
  datatype MapDelta = MapDelta(replaceRoot: Option<Contents>, clear: bool, changes: map<Key, Option<Value>>)

  /** A checkpoint on disk; `prev` is the position of the one a delta builds on. */
  datatype Chunk =
    | Base(version: nat, maps: Db)
    | Delta(version: nat, prev: Option<nat>, removed: set<Name>, deltas: map<Name, MapDelta>)

  type Live = map<Name, MapState>

  function ContentsOf(live: Live): (db: Db) {
    map n | n in live :: live[n].contents
  }

  // ---------------------------------------------------------------- writing a checkpoint

  predicate Changed(j: Journal) {
    j.clear || j.changes != map[]
  }

  function DeltaFor(s: MapState, known: bool): (d: MapDelta) {
    if known then MapDelta(None, s.journal.clear, s.journal.changes) else MapDelta(Some(s.contents), false, map[])
  }

  /** The chunk a checkpoint writes. */
  function CheckpointChunk(live: Live, checkpointed: set<Name>, first: bool, version: nat, prev: Option<nat>): (c: Chunk) {
    if first then Base(version, ContentsOf(live))
    else Delta(version, prev, checkpointed - live.Keys,
               map n | n in live && (n !in checkpointed || Changed(live[n].journal))
                 :: DeltaFor(live[n], n in checkpointed))
  }

  function DrainAll(live: Live): (r: Live) {
    map n | n in live :: live[n].(journal := EmptyJournal(true))
  }

  // ---------------------------------------------------------------- reading checkpoints

  function DeltaMap(below: Contents, d: MapDelta): (m: Contents) {
    ApplyJournal(if d.replaceRoot.Some? then d.replaceRoot.value else below, Journal(true, d.clear, d.changes))
  }

  /** Applies one delta; a change to a map that is not there is an error. */
  function ApplyDelta(db: Db, c: Chunk): (r: Option<Db>)
    requires c.Delta?
  {
    var kept := db - c.removed;
    if forall n :: n in c.deltas && c.deltas[n].replaceRoot.None? ==> n in kept then
      Some(map n | n in kept.Keys + c.deltas.Keys ::
             if n in c.deltas then DeltaMap(MapAt(kept, n), c.deltas[n]) else kept[n])
    else None
  }

  /** The store at the end of the chain that ends at `last`; an empty chain is an empty store. */
  function Rebuild(chunks: seq<Chunk>, last: Option<nat>): (r: Option<Db>)
    decreases if last.Some? then last.value + 1 else 0
  {
    match last
    case None => Some(map[])
    case Some(i) =>
      if i >= |chunks| then None else
        match chunks[i]
        case Base(_, maps) => Some(maps)
        case Delta(_, prev, _, _) =>
          if prev.Some? && prev.value >= i then None else
            match Rebuild(chunks, prev)
            case None => None
            case Some(db) => ApplyDelta(db, chunks[i])
  }

  /** Appending chunks leaves every chain as it was. */
  lemma {:induction false} RebuildStable(chunks: seq<Chunk>, more: seq<Chunk>, last: Option<nat>)
    requires last.Some? ==> last.value < |chunks|
    ensures Rebuild(chunks + more, last) == Rebuild(chunks, last)
    decreases if last.Some? then last.value + 1 else 0
  {
    if last.Some? && chunks[last.value].Delta? {
      var prev := chunks[last.value].prev;
      if !(prev.Some? && prev.value >= last.value) {
        RebuildStable(chunks, more, prev);
      }
    }
  }

  /** What reading back one checkpoint gives, given the image it was made against. */
  function Rebuilt(image: Db, live: Live): (db: Db) {
    map n | n in live :: if n in image then ApplyJournal(image[n], live[n].journal) else live[n].contents
  }

  lemma DeltaRebuilds(image: Db, live: Live, version: nat, prev: Option<nat>)
    ensures ApplyDelta(image, CheckpointChunk(live, image.Keys, false, version, prev)) == Some(Rebuilt(image, live))
  {
    hide ApplyJournal;
    var c := CheckpointChunk(live, image.Keys, false, version, prev);
    var kept := image - c.removed;
    assert kept.Keys + c.deltas.Keys == live.Keys;
    var r := ApplyDelta(image, c).value;
    forall n | n in live
      ensures r[n] == Rebuilt(image, live)[n]
    {
      if n !in image {
        SameMap(DeltaMap(MapAt(kept, n), c.deltas[n]), live[n].contents);
      } else if n in c.deltas {
        SameMap(DeltaMap(MapAt(kept, n), c.deltas[n]), ApplyJournal(image[n], live[n].journal));
      } else {
        SameMap(image[n], ApplyJournal(image[n], live[n].journal));
      }
    }
    assert r == Rebuilt(image, live);
  }

  /** Reading a checkpoint back, full or delta, gives `Rebuilt` or the live contents. */
  lemma CheckpointRebuilds(chunks: seq<Chunk>, last: Option<nat>, image: Db, live: Live, first: bool, version: nat)
    requires last.Some? ==> last.value < |chunks|
    requires Rebuild(chunks, last) == Some(image)
    ensures var c := CheckpointChunk(live, image.Keys, first, version, last);
            Rebuild(chunks + [c], Some(|chunks|)) == Some(if first then ContentsOf(live) else Rebuilt(image, live))
  {
    hide Rebuilt, ApplyDelta;
    if !first {
      RebuildStable(chunks, [CheckpointChunk(live, image.Keys, false, version, last)], last);
      DeltaRebuilds(image, live, version, last);
    }
  }

  /** A delta is exact when every known map's journal leads from its image to its contents. */
  lemma RebuiltExact(image: Db, live: Live)
    ensures Rebuilt(image, live) == ContentsOf(live)
       <==> forall n :: n in live && n in image ==> Tracks(image[n], live[n])
  {
    hide ApplyJournal;
    if Rebuilt(image, live) == ContentsOf(live) {
      forall n | n in live && n in image ensures Tracks(image[n], live[n]) {
        assert Rebuilt(image, live)[n] == ContentsOf(live)[n];
      }
    }
  }
}
