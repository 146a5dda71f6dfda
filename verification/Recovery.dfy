/** Opening a store: the loops that choose a header, replay the checkpoint chain and replay the log. */
module Recovery {
  import opened Bytes
  import opened SortedEntries
  import opened ChangeLog
  import opened MapJournal
  import opened Checkpoints
  import opened Durability

  // ---------------------------------------------------------------- one delta

  /** The part of a journal over some of its keys. */
  ghost function Part(d: MapDelta, ks: set<Key>): (j: Journal)
    requires ks <= d.changes.Keys
  {
    Journal(true, d.clear, map k | k in ks :: d.changes[k])
  }

  lemma PartStep(below: Contents, d: MapDelta, ks: set<Key>, k: Key)
    requires ks <= d.changes.Keys && k in d.changes && k !in ks
    ensures ApplyJournal(below, Part(d, ks + {k})) == Update(ApplyJournal(below, Part(d, ks)), k, d.changes[k])
  {
    hide ApplyJournal;
    var a, b := ApplyJournal(below, Part(d, ks + {k})), ApplyJournal(below, Part(d, ks));
    var u := Update(b, k, d.changes[k]);
    forall x ensures Get(a, x) == Get(u, x) {
      assert Get(a, x) == JournalAt(below, Part(d, ks + {k}), x);
      assert Get(b, x) == JournalAt(below, Part(d, ks), x);
    }
    SameMap(a, u);
  }

  lemma PartNone(below: Contents, d: MapDelta)
    ensures ApplyJournal(below, Part(d, {})) == if d.clear then map[] else below
  {
    hide ApplyJournal;
    SameMap(ApplyJournal(below, Part(d, {})), if d.clear then map[] else below);
  }

  /** Replays what a delta says about one map, key by key in any order. */
  method ReplayMapDelta(below: Contents, d: MapDelta) returns (m: Contents)
    ensures m == DeltaMap(below, d)
  {
    hide ApplyJournal;
    var root := if d.replaceRoot.Some? then d.replaceRoot.value else below;
    m := if d.clear then map[] else root;
    PartNone(root, d);
    var left := d.changes.Keys;
    while left != {}
      invariant left <= d.changes.Keys
      invariant m == ApplyJournal(root, Part(d, d.changes.Keys - left))
      decreases left
    {
      var k :| k in left;
      PartStep(root, d, d.changes.Keys - left, k);
      assert d.changes.Keys - (left - {k}) == d.changes.Keys - left + {k};
      if d.changes[k].Some? {
        m := m[k := d.changes[k].value];
      } else {
        m := m - {k};
      }
      left := left - {k};
    }
    assert d.changes.Keys - left == d.changes.Keys;
    assert Part(d, d.changes.Keys).changes == d.changes;
  }

  /** The maps after a delta was applied to some of those it names. */
  ghost function Replayed(kept: Db, c: Chunk, done: set<Name>): (r: Db)
    requires c.Delta? && done <= c.deltas.Keys
  {
    map n | n in kept.Keys + done :: if n in done then DeltaMap(MapAt(kept, n), c.deltas[n]) else kept[n]
  }

  lemma ReplayedNone(kept: Db, c: Chunk)
    requires c.Delta?
    ensures Replayed(kept, c, {}) == kept
  {
  }

  lemma ReplayedStep(kept: Db, c: Chunk, done: set<Name>, n: Name)
    requires c.Delta? && done <= c.deltas.Keys && n in c.deltas && n !in done
    ensures MapAt(Replayed(kept, c, done), n) == MapAt(kept, n)
    ensures n in Replayed(kept, c, done) <==> n in kept
    ensures Replayed(kept, c, done + {n}) == Replayed(kept, c, done)[n := DeltaMap(MapAt(kept, n), c.deltas[n])]
  {
    hide DeltaMap;
  }

  lemma ReplayedAll(kept: Db, c: Chunk)
    requires c.Delta?
    ensures Replayed(kept, c, c.deltas.Keys)
         == map n | n in kept.Keys + c.deltas.Keys :: if n in c.deltas then DeltaMap(MapAt(kept, n), c.deltas[n]) else kept[n]
  {
    hide DeltaMap;
  }

  /** Applies one delta to the maps read so far. */
  method ReplayDelta(db: Db, c: Chunk) returns (r: Option<Db>)
    requires c.Delta?
    ensures r == ApplyDelta(db, c)
  {
    hide DeltaMap, Replayed;
    var kept := db - c.removed;
    var maps, left := kept, c.deltas.Keys;
    ReplayedNone(kept, c);
    assert c.deltas.Keys - left == {};
    while left != {}
      invariant left <= c.deltas.Keys && maps == Replayed(kept, c, c.deltas.Keys - left)
      invariant forall n :: n in c.deltas && n !in left && c.deltas[n].replaceRoot.None? ==> n in kept
      decreases left
    {
      var n :| n in left;
      var d := c.deltas[n];
      ReplayedStep(kept, c, c.deltas.Keys - left, n);
      if d.replaceRoot.None? && n !in maps {
        return None;
      }
      assert c.deltas.Keys - (left - {n}) == c.deltas.Keys - left + {n};
      var m := ReplayMapDelta(MapAt(maps, n), d);
      maps, left := maps[n := m], left - {n};
    }
    assert c.deltas.Keys - left == c.deltas.Keys;
    ReplayedAll(kept, c);
    r := Some(maps);
  }

  // ---------------------------------------------------------------- the chain

  /** Applies deltas, the oldest first. */
  ghost function ApplyDeltas(db: Option<Db>, deltas: seq<Chunk>): (r: Option<Db>)
    requires forall c :: c in deltas ==> c.Delta?
    decreases deltas
  {
    if db.None? || deltas == [] then db
    else ApplyDeltas(ApplyDelta(db.value, deltas[0]), deltas[1..])
  }

  lemma {:induction false} NoRescue(deltas: seq<Chunk>)
    requires forall c :: c in deltas ==> c.Delta?
    ensures ApplyDeltas(None, deltas) == None
  {
  }

  /** Walks the chain back to its base, collecting the deltas on the way. */
  method ReadChain(chunks: seq<Chunk>, last: Option<nat>) returns (base: Option<Db>, deltas: seq<Chunk>)
    ensures forall c :: c in deltas ==> c.Delta?
    ensures ApplyDeltas(base, deltas) == Rebuild(chunks, last)
  {
    hide ApplyDelta;
    var at := last;
    deltas := [];
    while at.Some?
      invariant forall c :: c in deltas ==> c.Delta?
      invariant ApplyDeltas(Rebuild(chunks, at), deltas) == Rebuild(chunks, last)
      decreases if at.Some? then at.value + 1 else 0
    {
      var i := at.value;
      if i >= |chunks| {
        return None, deltas;
      }
      var c := chunks[i];
      if c.Base? {
        return Some(c.maps), deltas;
      }
      if c.prev.Some? && c.prev.value >= i {
        return None, deltas;
      }
      ghost var newer := deltas;
      deltas, at := [c] + deltas, c.prev;
      assert deltas[1..] == newer;
      NoRescue(newer);
    }
    base := Some(map[]);
  }

  /** Rebuilds the maps of a checkpoint from its base and its deltas. */
  method RebuildMaps(chunks: seq<Chunk>, last: Option<nat>) returns (r: Option<Db>)
    ensures r == Rebuild(chunks, last)
  {
    hide Rebuild, ApplyDelta;
    var deltas;
    r, deltas := ReadChain(chunks, last);
    for i := 0 to |deltas|
      invariant forall c :: c in deltas ==> c.Delta?
      invariant ApplyDeltas(r, deltas[i..]) == Rebuild(chunks, last)
    {
      if r.None? {
        return None;
      }
      assert deltas[i] in deltas && deltas[i..][1..] == deltas[i + 1..];
      r := ReplayDelta(r.value, deltas[i]);
    }
  }

  // ---------------------------------------------------------------- the log

  lemma ChangesSnoc(log: seq<Commit>, i: nat)
    requires i < |log|
    ensures Changes(Records(log[..i + 1])) == Changes(Records(log[..i])) + log[i].record.changes
  {
    var rs := Records(log[..i + 1]);
    assert rs[..i] == Records(log[..i]) && rs[i] == log[i].record;
  }

  lemma OneMoreChange(live: Live, before: seq<Change>, cs: seq<Change>, j: nat, journaling: bool)
    requires j < |cs|
    ensures ApplyAllLive(live, before + cs[..j + 1], journaling)
         == ApplyLive(ApplyAllLive(live, before + cs[..j], journaling), cs[j], journaling)
  {
    hide ApplyLive;
    var all := before + cs[..j + 1];
    assert all[..|all| - 1] == before + cs[..j];
  }

  /** Applies the changes of commits to the live maps, one after the other. */
  method ReplayCommits(live: Live, log: seq<Commit>, journaling: bool) returns (r: Live)
    ensures r == ReplayLive(live, log, journaling)
  {
    hide Changes, ApplyAllLive, ApplyLive, Records;
    r := live;
    StartOfLog(live, log, journaling);
    for i := 0 to |log|
      invariant r == ApplyAllLive(live, Changes(Records(log[..i])), journaling)
    {
      ghost var before := Changes(Records(log[..i]));
      var changes := log[i].record.changes;
      assert before + changes[..0] == before;
      for j := 0 to |changes|
        invariant r == ApplyAllLive(live, before + changes[..j], journaling)
      {
        OneMoreChange(live, before, changes, j, journaling);
        r := ReplayChange(r, changes[j], journaling);
      }
      assert changes[..|changes|] == changes;
      ChangesSnoc(log, i);
    }
    assert log[..|log|] == log;
  }

  /** Opens the named map, creating it if needed, and puts or removes one key. */
  method ReplayChange(live: Live, c: Change, journaling: bool) returns (r: Live)
    ensures r == ApplyLive(live, c, journaling)
  {
    r := live;
    if c.name !in r {
      r := r[c.name := MapState(map[], EmptyJournal(journaling))];
    }
    var state := r[c.name];
    if c.value.Some? {
      r := r[c.name := PutState(state, c.key, c.value.value)];
    } else {
      r := r[c.name := RemoveState(state, c.key)];
    }
  }

  lemma StartOfLog(live: Live, log: seq<Commit>, journaling: bool)
    ensures ApplyAllLive(live, Changes(Records(log[..0])), journaling) == live
  {
  }

  method HighestVersion(from: nat, log: seq<Commit>) returns (v: nat)
    ensures v == MaxVersion(from, log)
  {
    v := from;
    for i := 0 to |log|
      invariant v == MaxVersion(from, log[..i])
    {
      assert log[..i + 1][..i] == log[..i];
      if log[i].record.version > v {
        v := log[i].record.version;
      }
    }
    assert log[..|log|] == log;
  }

  /** Opens a store on a disk as a crash left it. */
  method OpenStore(chunks: seq<Chunk>, primary: Slot, shadow: Slot, wal: seq<Commit>) returns (m: Option<Memory>)
    ensures m == Open(chunks, primary, shadow, wal)
  {
    hide Rebuild, ReplayLive, MaxVersion;
    var chosen := ChooseHeader(primary, shadow);
    if chosen.None? {
      return None;
    }
    var h := chosen.value;
    var image := RebuildMaps(chunks, h.last);
    if image.None? {
      return None;
    }
    var live := ReplayCommits(LoadMaps(image.value), wal, true);
    var v := HighestVersion(h.version, wal);
    m := Some(Memory(live, image.value.Keys, h.last.Some?, h, v, v, Queue([], false, None), Idle));
  }
}
