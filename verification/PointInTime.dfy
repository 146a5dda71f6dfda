/** Point-in-time restore from the files: a backup, the archive segments, and a target version. */
module PointInTime {
  import opened Bytes
  import opened SortedEntries
  import opened Utf8
  import opened ChangeLog
  import opened WalFrames
  import Backup
  import opened Archive

  /** Map names as UTF-8 bytes. */
  datatype Names = Names(encode: Name -> seq<Byte>, decode: seq<Byte> -> Name)

  ghost predicate LawfulNames(names: Names) {
    forall n :: ValidUtf8(names.encode(n)) && names.decode(names.encode(n)) == n
  }

  /** A listing of a store: for each map its encoded name and its entries in key order. */
  ghost predicate Lists(names: Names, db: Db, listing: Backup.Maps) {
    && (forall n :: n in db ==> names.encode(n) in listing)
    && (forall k :: k in listing ==> names.decode(k) in db && names.encode(names.decode(k)) == k)
    && (forall k :: k in listing && names.decode(k) in db ==>
          Sorted(listing[k]) && MapOf(listing[k]) == db[names.decode(k)])
  }

  // ---------------------------------------------------------------- filling maps

  /** The map that putting entries one after the other gives. */
  function Filled(es: seq<Entry>): (m: Contents) {
    if es == [] then map[] else Filled(es[..|es| - 1])[es[|es| - 1].key := es[|es| - 1].value]
  }

  /** Putting a further entry with a new key. */
  lemma {:induction false} MapOfSnoc(es: seq<Entry>, e: Entry)
    requires forall x :: x in es ==> x.key != e.key
    ensures MapOf(es + [e]) == MapOf(es)[e.key := e.value]
  {
    if es == [] {
      assert [e][1..] == [];
      assert MapOf([e]) == MapOf([])[e.key := e.value];
    } else {
      assert es[0] in es;
      MapOfSnoc(es[1..], e);
      assert (es + [e])[1..] == es[1..] + [e];
    }
  }

  /** Filling with sorted entries gives the map they list. */
  lemma {:induction false} FilledSorted(es: seq<Entry>)
    requires Sorted(es)
    ensures Filled(es) == MapOf(es)
  {
    hide Less, Weight, MapOf;
    if es == [] {
      EmptyMap();
    } else {
      var front, last := es[..|es| - 1], es[|es| - 1];
      assert es == front + [last];
      FilledSorted(front);
      LastKeyIsNew(front, last);
      MapOfSnoc(front, last);
    }
  }

  lemma EmptyMap()
    ensures MapOf([]) == map[]
  {
  }

  lemma LastKeyIsNew(front: seq<Entry>, last: Entry)
    requires Sorted(front + [last])
    ensures forall x :: x in front ==> x.key != last.key
  {
    var es := front + [last];
    forall x | x in front ensures x.key != last.key {
      var i :| 0 <= i < |front| && front[i] == x;
      assert Less(es[i].key, es[|front|].key);
    }
  }

  /** Opens and clears a map, then puts the entries of the backup. */
  method Fill(es: seq<Entry>) returns (m: Contents)
    ensures m == Filled(es)
  {
    m := map[];
    for i := 0 to |es|
      invariant m == Filled(es[..i])
    {
      assert es[..i + 1][..i] == es[..i];
      m := m[es[i].key := es[i].value];
    }
    assert es[..|es|] == es;
  }

  /** Restores the maps of a backup, in any order. A store without other maps becomes the one that was listed. */
  method LoadBackup(names: Names, store: Db, listing: Backup.Maps, ghost db: Db) returns (r: Db)
    ensures LawfulNames(names) && Lists(names, db, listing) && store == map[] ==> r == db
  {
    hide MapOf, Sorted, Filled;
    ghost var good := LawfulNames(names) && Lists(names, db, listing) && store == map[];
    r := store;
    var todo := listing.Keys;
    while todo != {}
      invariant todo <= listing.Keys
      invariant good ==> forall n :: n in r <==> n in db && names.encode(n) !in todo
      invariant good ==> forall n :: n in r ==> n in db && r[n] == db[n]
      decreases todo
    {
      var k :| k in todo;
      var m := Fill(listing[k]);
      if good {
        FilledSorted(listing[k]);
      }
      r := r[names.decode(k) := m];
      todo := todo - {k};
    }
  }

  // ---------------------------------------------------------------- the restore

  /**
   * Restores a backup file and rolls the archive forward. From a backup of the primary at version b
   * and an archive of every later commit, in any order over any segments, and whatever follows the
   * backup in its file, a store without other maps becomes the primary after its last commit not
   * newer than v. Nothing is restored from a file that is not a backup.
   */
  method RestoreFromFiles(c: Codec, names: Names, store: Db, file: seq<Byte>, segments: seq<seq<Byte>>, v: nat,
                          ghost info: Backup.Info, ghost listing: Backup.Maps, ghost order: seq<seq<Byte>>, ghost primary: Db,
                          ghost parts: seq<seq<Record>>, ghost history: seq<Record>)
    returns (r: Option<Db>)
    requires Lawful(c) && LawfulNames(names) && |parts| == |segments|
    requires forall i :: 0 <= i < |parts| ==> segments[i] == Frames(c, parts[i]) && AllFit(c, parts[i])
    requires Increasing(history)
    requires multiset(After(Concat(parts), info.snapshotVersion)) == multiset(After(history, info.snapshotVersion))
    requires Lists(names, primary, listing) && forall n :: n in order <==> n in listing
    ensures var ss := Backup.SectionsOf(listing, order); var b := info.snapshotVersion;
            && Backup.EncodeBackup(info, ss) <= file && Backup.BackupFits(info, ss)
            && b <= v && store == map[] && Same(primary, Replay(map[], UpTo(history, b)))
            ==> r.Some? && Same(r.value, Replay(map[], UpTo(history, v)))
    ensures (forall i, ss :: !Backup.IsBackup(file, i, ss)) ==> r.None?
  {
    hide Frames, AllFit, Replay, UpTo, After, Lists, Increasing, Same, Concat, Backup.EncodeBackup, Backup.BackupFits,
         Backup.IsBackup, Backup.SectionsMap;
    ghost var ss := Backup.SectionsOf(listing, order);
    ghost var good := Backup.EncodeBackup(info, ss) <= file && Backup.BackupFits(info, ss);
    if good {
      Backup.WrittenIsBackup(file, info, ss);
      Backup.SectionsListMaps(listing, order);
      assert (map n | n in listing && n in order :: listing[n]) == listing;
    }
    ghost var read;
    var found;
    found, read := Backup.ReadBackup(file, info, ss);
    if found.Rejected? {
      return None;
    }
    assert Backup.IsBackup(file, found.info, read);
    var backup := LoadBackup(names, store, found.maps, primary);
    var db, report := RestorePitr(c, store, backup, found.info.snapshotVersion, segments, v, parts, history);
    r := Some(db);
  }
}
