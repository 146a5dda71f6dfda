/**
 * A named map with its change journal. While journaling is on, the image last persisted
 * plus the journal is the live map, whatever falls between draining and persisting.
 */
module MapJournal {
  import opened Bytes
  import opened SortedEntries
  import opened ChangeLog

  datatype Journal = Journal(enabled: bool, clear: bool, changes: map<Key, Option<Value>>)

  function EmptyJournal(enabled: bool): (j: Journal) {
    Journal(enabled, false, map[])
  }

  function Get(m: Contents, k: Key): (v: Option<Value>) {
    if k in m then Some(m[k]) else None
  }

  /** What a journal leaves of an image at one key. */
  function JournalAt(image: Contents, j: Journal, k: Key): (v: Option<Value>) {
    if k in j.changes then j.changes[k] else if j.clear then None else Get(image, k)
  }

  /** The map an image becomes under a journal. */
  function ApplyJournal(image: Contents, j: Journal): (m: Contents)
    ensures forall k :: Get(m, k) == JournalAt(image, j, k)
  {
    var below := if j.clear then map[] else image;
    map k | k in below.Keys + j.changes.Keys && (k in j.changes ==> j.changes[k].Some?)
      :: if k in j.changes then j.changes[k].value else below[k]
  }

  lemma SameMap(a: Contents, b: Contents)
    requires forall k :: Get(a, k) == Get(b, k)
    ensures a == b
  {
    forall k ensures k in a <==> k in b {
      assert Get(a, k) == Get(b, k);
    }
    forall k | k in a ensures a[k] == b[k] {
      assert Get(a, k) == Get(b, k);
    }
  }

  /** The live contents of a map and its journal. */
  datatype MapState = MapState(contents: Contents, journal: Journal)

  function PutState(s: MapState, k: Key, v: Value): (r: MapState) {
    MapState(s.contents[k := v],
             if s.journal.enabled then s.journal.(changes := s.journal.changes[k := Some(v)]) else s.journal)
  }

  /** Removing an absent key is not journalled. */
  function RemoveState(s: MapState, k: Key): (r: MapState) {
    MapState(s.contents - {k},
             if k in s.contents && s.journal.enabled then s.journal.(changes := s.journal.changes[k := None])
             else s.journal)
  }

  function ClearState(s: MapState): (r: MapState) {
    MapState(map[], if s.journal.enabled then s.journal.(clear := true, changes := map[]) else s.journal)
  }

  function ChangeState(s: MapState, k: Key, v: Option<Value>): (r: MapState) {
    match v
    case Some(x) => PutState(s, k, x)
    case None => RemoveState(s, k)
  }

  /** Merges a drained journal back under the current one. */
  function Merge(before: Journal, current: Journal): (j: Journal) {
    if current.clear then current
    else current.(clear := before.clear, changes := before.changes + current.changes)
  }

  /** The journal leads from the base to the live contents. */
  ghost predicate Tracks(base: Contents, s: MapState) {
    ApplyJournal(base, s.journal) == s.contents
  }

  // ---------------------------------------------------------------- laws of journals

  /** Every mutation keeps every base tracked. */
  lemma MutationsTrack(base: Contents, s: MapState, k: Key, v: Option<Value>)
    requires s.journal.enabled && Tracks(base, s)
    ensures Tracks(base, ChangeState(s, k, v))
    ensures Tracks(base, ClearState(s))
  {
    hide ApplyJournal;
    var r, c := ChangeState(s, k, v), ClearState(s);
    assert forall x :: Get(s.contents, x) == JournalAt(base, s.journal, x);
    forall x ensures Get(r.contents, x) == JournalAt(base, r.journal, x) {
      assert Get(s.contents, x) == JournalAt(base, s.journal, x);
    }
    SameMap(ApplyJournal(base, r.journal), r.contents);
    SameMap(ApplyJournal(base, c.journal), c.contents);
  }

  /** A put or remove sets its key and leaves every other key alone. */
  lemma ChangeSets(s: MapState, k: Key, v: Option<Value>, x: Key)
    ensures Get(ChangeState(s, k, v).contents, x) == if x == k then v else Get(s.contents, x)
  {
  }

  /** Clearing leaves nothing, and with journaling on every image becomes empty under the journal. */
  lemma ClearErases(s: MapState, base: Contents)
    ensures ClearState(s).contents == map[]
    ensures s.journal.enabled ==> ApplyJournal(base, ClearState(s).journal) == map[]
  {
    hide ApplyJournal;
    if s.journal.enabled {
      SameMap(ApplyJournal(base, ClearState(s).journal), map[]);
    }
  }

  /** Applying a journal twice is applying it once. */
  lemma ApplyTwice(image: Contents, j: Journal)
    ensures ApplyJournal(ApplyJournal(image, j), j) == ApplyJournal(image, j)
  {
    hide ApplyJournal;
    SameMap(ApplyJournal(ApplyJournal(image, j), j), ApplyJournal(image, j));
  }

  /** Merging journals is composing them. */
  lemma MergeComposes(image: Contents, before: Journal, current: Journal)
    ensures ApplyJournal(image, Merge(before, current)) == ApplyJournal(ApplyJournal(image, before), current)
  {
    hide ApplyJournal;
    SameMap(ApplyJournal(image, Merge(before, current)), ApplyJournal(ApplyJournal(image, before), current));
  }

  /** Two images give the same map exactly when the journal clears them or they agree wherever it is silent. */
  lemma ApplyAgrees(a: Contents, b: Contents, j: Journal)
    ensures ApplyJournal(a, j) == ApplyJournal(b, j) <==> AgreeOutside(a, b, j)
  {
    hide ApplyJournal;
    var x, y := ApplyJournal(a, j), ApplyJournal(b, j);
    if AgreeOutside(a, b, j) {
      SameMap(x, y);
    }
    if x == y && !j.clear {
      forall k | k !in j.changes ensures Get(a, k) == Get(b, k) {
        assert Get(x, k) == JournalAt(a, j, k) && Get(y, k) == JournalAt(b, j, k);
      }
    }
  }

  ghost predicate AgreeOutside(a: Contents, b: Contents, j: Journal) {
    j.clear || forall k :: k !in j.changes ==> Get(a, k) == Get(b, k)
  }

  // ---------------------------------------------------------------- the map object

  class MVMap {
    var tree: Contents
    var journal: Journal
    var modCount: nat
    var cachedRoot: Option<(nat, Contents)>

    /** A cached root is current while the modification count it was taken at is. */
    ghost predicate Valid()
      reads this
    {
      cachedRoot.Some? ==>
        && cachedRoot.value.0 <= modCount
        && (cachedRoot.value.0 == modCount ==> cachedRoot.value.1 == tree)
    }

    ghost function State(): (s: MapState)
      reads this
    {
      MapState(tree, journal)
    }

    constructor (initial: Contents)
      ensures Valid() && State() == MapState(initial, EmptyJournal(false))
    {
      tree, journal, modCount, cachedRoot := initial, EmptyJournal(false), 1, None;
    }

    method Put(k: Key, v: Value)
      requires Valid()
      modifies this
      ensures Valid() && State() == PutState(old(State()), k, v)
      ensures tree == old(tree)[k := v]
      ensures journal == if old(journal.enabled) then old(journal).(changes := old(journal.changes)[k := Some(v)]) else old(journal)
    {
      modCount := modCount + 1;
      tree := tree[k := v];
      if journal.enabled {
        journal := journal.(changes := journal.changes[k := Some(v)]);
      }
    }

    method Remove(k: Key) returns (removed: Option<Value>)
      requires Valid()
      modifies this
      ensures Valid() && State() == RemoveState(old(State()), k)
      ensures tree == old(tree) - {k}
      ensures journal == if k in old(tree) && old(journal.enabled) then old(journal).(changes := old(journal.changes)[k := None])
                         else old(journal)
      ensures removed == if k in old(tree) then Some(old(tree)[k]) else None
    {
      modCount := modCount + 1;
      removed := if k in tree then Some(tree[k]) else None;
      tree := tree - {k};
      if removed.Some? && journal.enabled {
        journal := journal.(changes := journal.changes[k := None]);
      }
    }

    method Clear()
      requires Valid()
      modifies this
      ensures Valid() && State() == ClearState(old(State()))
      ensures tree == map[]
      ensures journal == if old(journal.enabled) then Journal(true, true, map[]) else old(journal)
    {
      modCount := modCount + 1;
      tree := map[];
      if journal.enabled {
        journal := journal.(clear := true, changes := map[]);
      }
    }

    /** The root as of now, whether cached or read afresh. */
    method GetSerializedRoot() returns (root: Contents)
      requires Valid()
      modifies this`cachedRoot
      ensures Valid() && root == tree
    {
      if cachedRoot.Some? && cachedRoot.value.0 == modCount {
        return cachedRoot.value.1;
      }
      root := tree;
      cachedRoot := Some((modCount, root));
    }

    method SetJournaling(enabled: bool)
      requires Valid()
      modifies this`journal
      ensures Valid() && journal == old(journal).(enabled := enabled)
    {
      journal := journal.(enabled := enabled);
    }

    method TakeJournal() returns (taken: Journal)
      requires Valid()
      modifies this`journal
      ensures Valid() && taken == old(journal) && journal == EmptyJournal(old(journal.enabled))
    {
      taken := journal;
      journal := EmptyJournal(taken.enabled);
    }

    method RestoreJournal(taken: Journal)
      requires Valid()
      modifies this`journal
      ensures Valid() && journal == Merge(taken, old(journal))
    {
      if journal.clear {
        return;
      }
      if taken.clear {
        journal := journal.(clear := true, changes := taken.changes + journal.changes);
      } else {
        // Only keys without a newer change take the drained one.
        var kept := map k | k in taken.changes && k !in journal.changes :: taken.changes[k];
        journal := journal.(changes := journal.changes + kept);
        assert journal.changes == taken.changes + old(journal.changes);
      }
    }
  }

  // ---------------------------------------------------------------- interleaved runs

  /**
   * A journalled map during checkpoints: what is on disk, the live state, the journal drained
   * by a checkpoint under way, and the root that checkpoint has read, if it reads one.
   */
  datatype Tracked = Tracked(image: Contents, live: MapState, drained: Option<Journal>, root: Option<Contents>)

  datatype JournalEvent =
    | Mutate(key: Key, value: Option<Value>)
    | ClearAll
    | Take
    | ReadRoot
    | PersistDelta
    | PersistRoot
    | Fail

  ghost predicate CanHappen(t: Tracked, e: JournalEvent) {
    match e
    case Mutate(_, _) => true
    case ClearAll => true
    case Take => t.drained.None? && t.root.None?
    case ReadRoot => t.drained.Some?
    case PersistDelta => t.drained.Some? && t.root.None?
    case PersistRoot => t.drained.Some? && t.root.Some?
    case Fail => t.drained.Some?
  }

  function AfterEvent(t: Tracked, e: JournalEvent): (r: Tracked)
    requires CanHappen(t, e)
  {
    match e
    case Mutate(k, v) => t.(live := ChangeState(t.live, k, v))
    case ClearAll => t.(live := ClearState(t.live))
    case Take => t.(drained := Some(t.live.journal), live := t.live.(journal := EmptyJournal(t.live.journal.enabled)))
    case ReadRoot => t.(root := Some(t.live.contents))
    case PersistDelta => t.(image := ApplyJournal(t.image, t.drained.value), drained := None)
    case PersistRoot => t.(image := t.root.value, drained := None, root := None)
    case Fail => t.(live := t.live.(journal := Merge(t.drained.value, t.live.journal)), drained := None, root := None)
  }

  /** The events es lead from t to u. */
  ghost predicate JournalRun(t: Tracked, es: seq<JournalEvent>, u: Tracked)
    decreases es
  {
    if es == [] then t == u else CanHappen(t, es[0]) && JournalRun(AfterEvent(t, es[0]), es[1..], u)
  }

  /** The journal under way, seen from the disk image. */
  function Outstanding(t: Tracked): (j: Journal) {
    if t.drained.Some? then Merge(t.drained.value, t.live.journal) else t.live.journal
  }

  /** Disk image plus outstanding journal is the live map; so is a root already read plus the journal since draining. */
  ghost predicate Consistent(t: Tracked) {
    && t.live.journal.enabled
    && ApplyJournal(t.image, Outstanding(t)) == t.live.contents
    && (t.root.Some? ==> t.drained.Some? && Tracks(t.root.value, t.live))
  }

  lemma JournalEventConsistent(t: Tracked, e: JournalEvent)
    requires Consistent(t) && CanHappen(t, e)
    ensures Consistent(AfterEvent(t, e))
  {
    hide ApplyJournal;
    var base := if t.drained.Some? then ApplyJournal(t.image, t.drained.value) else t.image;
    if t.drained.Some? {
      MergeComposes(t.image, t.drained.value, t.live.journal);
    }
    assert Tracks(base, t.live);
    match e
    case Mutate(k, v) =>
      MutationsTrack(base, t.live, k, v);
      if t.drained.Some? {
        MergeComposes(t.image, t.drained.value, ChangeState(t.live, k, v).journal);
      }
      if t.root.Some? {
        MutationsTrack(t.root.value, t.live, k, v);
      }
    case ClearAll =>
      MutationsTrack(base, t.live, [], None);
      if t.drained.Some? {
        MergeComposes(t.image, t.drained.value, ClearState(t.live).journal);
      }
      if t.root.Some? {
        MutationsTrack(t.root.value, t.live, [], None);
      }
    case Take =>
      EmptyKeeps(ApplyJournal(t.image, t.live.journal), t.live.journal.enabled);
      MergeComposes(t.image, t.live.journal, EmptyJournal(t.live.journal.enabled));
    case ReadRoot =>
      ApplyTwice(base, t.live.journal);
    case PersistDelta =>
    case PersistRoot =>
    case Fail =>
  }

  lemma EmptyKeeps(m: Contents, enabled: bool)
    ensures ApplyJournal(m, EmptyJournal(enabled)) == m
  {
  }

  /** However mutations, drains, root reads, persists and failures interleave, the journal stays exact. */
  lemma {:induction false} JournalRunConsistent(t: Tracked, es: seq<JournalEvent>, u: Tracked)
    requires Consistent(t) && JournalRun(t, es, u)
    ensures Consistent(u)
    decreases es
  {
    hide CanHappen, AfterEvent, Consistent;
    if es != [] {
      JournalEventConsistent(t, es[0]);
      JournalRunConsistent(AfterEvent(t, es[0]), es[1..], u);
    }
  }

  // ---------------------------------------------------------------- what runs leave

  /** The last thing a run of events did to one key; clearing removes it. */
  function LastMutation(es: seq<JournalEvent>, k: Key): (w: Write) {
    if es == [] then Untouched
    else match es[|es| - 1]
      case Mutate(key, value) => if key == k then Written(value) else LastMutation(es[..|es| - 1], k)
      case ClearAll => Written(None)
      case _ => LastMutation(es[..|es| - 1], k)
  }

  lemma EventContents(t: Tracked, e: JournalEvent, k: Key)
    requires CanHappen(t, e)
    ensures Get(AfterEvent(t, e).live.contents, k) == Overlay(Get(t.live.contents, k), LastMutation([e], k))
  {
    hide ClearState, ChangeState;
    assert [e][..0] == [];
    match e
    case Mutate(key, value) => ChangeSets(t.live, key, value, k);
    case ClearAll => ClearErases(t.live, map[]);
    case _ =>
  }

  lemma {:induction false} LastMutationFirst(e: JournalEvent, es: seq<JournalEvent>, k: Key)
    ensures LastMutation([e] + es, k) == if LastMutation(es, k).Written? then LastMutation(es, k) else LastMutation([e], k)
  {
    if es == [] {
      assert [e] + es == [e];
    } else {
      LastMutationFirst(e, es[..|es| - 1], k);
      assert ([e] + es)[..|es|] == [e] + es[..|es| - 1];
    }
  }

  /** The live map after any run holds at every key what the run last did there. */
  lemma {:induction false} RunContents(t: Tracked, es: seq<JournalEvent>, u: Tracked, k: Key)
    requires JournalRun(t, es, u)
    ensures Get(u.live.contents, k) == Overlay(Get(t.live.contents, k), LastMutation(es, k))
    decreases es
  {
    hide CanHappen, AfterEvent, LastMutation;
    if es == [] {
      NoMutation(k);
    } else {
      EventContents(t, es[0], k);
      RunContents(AfterEvent(t, es[0]), es[1..], u, k);
      LastMutationFirst(es[0], es[1..], k);
      assert es == [es[0]] + es[1..];
    }
  }

  lemma NoMutation(k: Key)
    ensures LastMutation([], k) == Untouched
  {
  }

  /** Draining and persisting puts on disk exactly the live map, by delta or by root. */
  lemma DrainPersists(t: Tracked, u: Tracked)
    requires Consistent(t) && (JournalRun(t, [Take, PersistDelta], u) || JournalRun(t, [Take, ReadRoot, PersistRoot], u))
    ensures u.image == t.live.contents == u.live.contents
  {
    hide ApplyJournal;
    assert [Take, PersistDelta][1..] == [PersistDelta] && [PersistDelta][1..] == [];
    assert [Take, ReadRoot, PersistRoot][1..] == [ReadRoot, PersistRoot];
    assert [ReadRoot, PersistRoot][1..] == [PersistRoot] && [PersistRoot][1..] == [];
  }

  /** A cleared map is persisted as an empty one. */
  lemma ClearedPersists(t: Tracked, u: Tracked)
    requires Consistent(t) && JournalRun(t, [ClearAll, Take, PersistDelta], u)
    ensures u.image == map[]
  {
    hide ApplyJournal, ClearState, Consistent;
    var c := AfterEvent(t, ClearAll);
    JournalEventConsistent(t, ClearAll);
    ClearErases(t.live, t.image);
    assert [ClearAll, Take, PersistDelta][1..] == [Take, PersistDelta];
    DrainPersists(c, u);
  }
}
