/**
 * Named maps, change records and their replay. What a run of changes leaves at one key is
 * its last write there, so replaying a stretch of the log over a state that already
 * contains it changes nothing. Write-ahead-log recovery and replication both rest on this.
 */
module ChangeLog {
  import opened Bytes
  import opened SortedEntries

  type Name = string

  type Contents = map<Key, Value>

  /** The named maps of a store. */
  type Db = map<Name, Contents>

  /** A put, or a delete when there is no value. */
  datatype Change = Change(name: Name, key: Key, value: Option<Value>)

  /** One commit in the write-ahead log. */
  datatype Record = Record(txId: nat, version: nat, changes: seq<Change>, timestamp: int)

  /** The map called n; an absent map counts as empty. */
  function MapAt(db: Db, n: Name): (m: Contents) {
    if n in db then db[n] else map[]
  }

  function At(db: Db, n: Name, k: Key): (v: Option<Value>) {
    if n in db && k in db[n] then Some(db[n][k]) else None
  }

  /** Two stores hold the same entries, absent maps counting as empty. */
  ghost predicate Same(a: Db, b: Db) {
    forall n, k :: At(a, n, k) == At(b, n, k)
  }

  function Update(m: Contents, k: Key, v: Option<Value>): (r: Contents) {
    match v
    case Some(x) => m[k := x]
    case None => m - {k}
  }

  /** Applies a change, creating the map it names if there is none. */
  function Apply(db: Db, c: Change): (r: Db) {
    db[c.name := Update(MapAt(db, c.name), c.key, c.value)]
  }

  function ApplyAll(db: Db, cs: seq<Change>): (r: Db) {
    if cs == [] then db else Apply(ApplyAll(db, cs[..|cs| - 1]), cs[|cs| - 1])
  }

  /** All changes of a log, in order. */
  function Changes(log: seq<Record>): (cs: seq<Change>) {
    if log == [] then [] else Changes(log[..|log| - 1]) + log[|log| - 1].changes
  }

  /** Replays a log over a store. */
  function Replay(db: Db, log: seq<Record>): (r: Db) {
    ApplyAll(db, Changes(log))
  }

  // ---------------------------------------------------------------- last writes

  datatype Write = Untouched | Written(value: Option<Value>)

  /** The last write of a run of changes at one key. */
  function LastWrite(cs: seq<Change>, n: Name, k: Key): (w: Write) {
    if cs == [] then Untouched
    else
      var c := cs[|cs| - 1];
      if c.name == n && c.key == k then Written(c.value) else LastWrite(cs[..|cs| - 1], n, k)
  }

  function Overlay(below: Option<Value>, w: Write): (v: Option<Value>) {
    if w.Written? then w.value else below
  }

  /** Applying changes leaves their last write at every key. */
  lemma {:induction false} ApplyAllAt(db: Db, cs: seq<Change>, n: Name, k: Key)
    ensures At(ApplyAll(db, cs), n, k) == Overlay(At(db, n, k), LastWrite(cs, n, k))
  {
    if cs != [] {
      ApplyAllAt(db, cs[..|cs| - 1], n, k);
    }
  }

  /** The change writes this key of this map. */
  predicate Writes(c: Change, n: Name, k: Key) {
    c.name == n && c.key == k
  }

  /** The last change of a key decides whether the key is there and what it holds. */
  lemma {:induction false} LastChangeDecides(db: Db, cs: seq<Change>, i: nat)
    requires i < |cs| && forall j :: i < j < |cs| ==> !Writes(cs[j], cs[i].name, cs[i].key)
    ensures var r, c := ApplyAll(db, cs), cs[i];
            c.name in r && if c.value.Some? then c.key in r[c.name] && r[c.name][c.key] == c.value.value else c.key !in r[c.name]
  {
    var front, last := cs[..|cs| - 1], cs[|cs| - 1];
    if i < |front| {
      LastChangeDecides(db, front, i);
      assert !Writes(last, cs[i].name, cs[i].key);
    }
  }

  /** A key that no change writes is as before. */
  lemma {:induction false} UnwrittenStays(db: Db, cs: seq<Change>, n: Name, k: Key)
    requires forall c :: c in cs ==> !Writes(c, n, k)
    ensures var r := ApplyAll(db, cs);
            if n in db && k in db[n] then n in r && k in r[n] && r[n][k] == db[n][k] else n in r ==> k !in r[n]
  {
    if cs != [] {
      UnwrittenStays(db, cs[..|cs| - 1], n, k);
      assert cs[|cs| - 1] in cs;
    }
  }

  lemma {:induction false} LastWriteConcat(a: seq<Change>, b: seq<Change>, n: Name, k: Key)
    ensures LastWrite(a + b, n, k) == if LastWrite(b, n, k).Written? then LastWrite(b, n, k) else LastWrite(a, n, k)
  {
    if b == [] {
      assert a + b == a;
    } else {
      LastWriteConcat(a, b[..|b| - 1], n, k);
      assert (a + b)[..|a + b| - 1] == a + b[..|b| - 1];
    }
  }

  lemma {:induction false} ChangesConcat(a: seq<Record>, b: seq<Record>)
    ensures Changes(a + b) == Changes(a) + Changes(b)
  {
    if b == [] {
      assert a + b == a;
    } else {
      ChangesConcat(a, b[..|b| - 1]);
      assert (a + b)[..|a + b| - 1] == a + b[..|b| - 1];
    }
  }

  lemma {:induction false} ApplyAllConcat(db: Db, a: seq<Change>, b: seq<Change>)
    ensures ApplyAll(db, a + b) == ApplyAll(ApplyAll(db, a), b)
  {
    if b == [] {
      assert a + b == a;
    } else {
      ApplyAllConcat(db, a, b[..|b| - 1]);
      assert (a + b)[..|a + b| - 1] == a + b[..|b| - 1];
    }
  }

  lemma ReplayConcat(db: Db, a: seq<Record>, b: seq<Record>)
    ensures Replay(db, a + b) == Replay(Replay(db, a), b)
  {
    ChangesConcat(a, b);
    ApplyAllConcat(db, Changes(a), Changes(b));
  }

  /** Replay does not tell apart stores with the same entries. */
  lemma ReplaySame(a: Db, b: Db, log: seq<Record>)
    requires Same(a, b)
    ensures Same(Replay(a, log), Replay(b, log))
  {
    forall n, k ensures At(Replay(a, log), n, k) == At(Replay(b, log), n, k) {
      ApplyAllAt(a, Changes(log), n, k);
      ApplyAllAt(b, Changes(log), n, k);
    }
  }

  /**
   * Replaying `again + rest` over a store that already contains `again`, as the last part of
   * what it has seen, is replaying `rest`.
   */
  lemma ReplayAbsorbs(db: Db, again: seq<Record>, rest: seq<Record>)
    ensures Same(Replay(Replay(db, again), again + rest), Replay(Replay(db, again), rest))
  {
    ReplayConcat(Replay(db, again), again, rest);
    forall n, k ensures At(Replay(Replay(db, again), again), n, k) == At(Replay(db, again), n, k) {
      ApplyAllAt(Replay(db, again), Changes(again), n, k);
      ApplyAllAt(db, Changes(again), n, k);
    }
    ReplaySame(Replay(Replay(db, again), again), Replay(db, again), rest);
  }

  /** The same for a suffix: a store at position j of a log, replayed from i <= j to the end. */
  lemma ReplayFromEarlier(db: Db, log: seq<Record>, i: nat, j: nat)
    requires i <= j <= |log|
    ensures Same(Replay(Replay(db, log[..j]), log[i..]), Replay(db, log))
  {
    var base := Replay(db, log[..i]);
    assert log[..j] == log[..i] + log[i..j];
    assert log == log[..j] + log[j..];
    assert log[i..] == log[i..j] + log[j..];
    ReplayConcat(db, log[..i], log[i..j]);
    ReplayConcat(db, log[..j], log[j..]);
    ReplayAbsorbs(base, log[i..j], log[j..]);
  }
}
