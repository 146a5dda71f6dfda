/**
 * The continuous archive of the write-ahead log, cut into segments, and restoring a store to a
 * version from a backup and that archive.
 */
module Archive {
  import opened Bytes
  import opened SortedEntries
  import opened Encoding
  import opened Checksum
  import opened ChangeLog
  import opened WalFrames

  function Concat(parts: seq<seq<Record>>): (rs: seq<Record>) {
    if parts == [] then [] else Concat(parts[..|parts| - 1]) + parts[|parts| - 1]
  }

  class WalArchiver {
    /** The segment files in the order of their names. */
    var segments: seq<seq<Byte>>
    var writing: bool
    var segmentBytes: nat
    var minVersion: nat
    var maxVersion: nat
    var totalRecords: nat
    const segmentSizeLimit: nat
    const codec: Codec
    /** The records in each segment, and which segment was the first to be written here. */
    ghost var parts: seq<seq<Record>>
    ghost const firstOwn: nat

    ghost predicate Valid()
      reads this
    {
      && |parts| == |segments|
      && (forall i :: 0 <= i < |parts| ==> segments[i] == Frames(codec, parts[i]) && AllFit(codec, parts[i]))
      && (writing ==> |segments| > firstOwn && segmentBytes == |segments[|segments| - 1]|)
      && firstOwn <= |segments|
      && (forall i :: firstOwn <= i < |parts| ==> |segments[i]| <= segmentSizeLimit || |parts[i]| == 1)
    }

    ghost function Archived(): (rs: seq<Record>)
      reads this
    {
      Concat(parts)
    }

    /** Opens an archive directory: writing goes on in a new segment after the existing ones. */
    constructor (c: Codec, limit: nat, existing: seq<seq<Byte>>, ghost existingParts: seq<seq<Record>>)
      requires |existingParts| == |existing|
      requires forall i :: 0 <= i < |existing| ==>
                 existing[i] == Frames(c, existingParts[i]) && AllFit(c, existingParts[i])
      ensures Valid() && Archived() == Concat(existingParts) && codec == c
      ensures segments == existing && !writing && segmentSizeLimit == limit && firstOwn == |existing|
    {
      segments, writing, segmentBytes := existing, false, 0;
      minVersion, maxVersion, totalRecords := 0, 0, 0;
      segmentSizeLimit, codec, parts := limit, c, existingParts;
      firstOwn := |existing|;
    }

    /** Starts a new segment. */
    method Rotate()
      requires Valid()
      modifies this`segments, this`parts, this`writing, this`segmentBytes
      ensures Valid() && Archived() == old(Archived()) && writing && segmentBytes == 0
      ensures segments == old(segments) + [[]] && parts == old(parts) + [[]]
    {
      segments := segments + [[]];
      parts := parts + [[]];
      writing, segmentBytes := true, 0;
      assert parts[..|parts| - 1] == old(parts);
    }

    /** Appends a frame to the current segment. */
    method Append(r: Record)
      requires Valid() && Fits(codec, r) && writing
      requires segmentBytes + |Frame(codec, r)| <= segmentSizeLimit || parts[|parts| - 1] == []
      modifies this`segments, this`parts, this`segmentBytes
      ensures Valid() && Archived() == old(Archived()) + [r]
      ensures segments == old(segments)[..|old(segments)| - 1] + [old(segments)[|old(segments)| - 1] + Frame(codec, r)]
    {
      hide Frame, Fits, Frames, AllFit, Concat;
      ghost var last, part := |segments| - 1, parts[|segments| - 1];
      var buf := Frame(codec, r);
      segments := segments[|segments| - 1 := segments[|segments| - 1] + buf];
      segmentBytes := segmentBytes + |buf|;
      parts := parts[last := part + [r]];
      GrownPart(codec, part, r);
      GrownLast(old(parts), r);
    }

    /** Appends a record, starting a new segment when the current one would grow too large. */
    method ArchiveRecord(r: Record)
      requires Valid() && Fits(codec, r)
      modifies this
      ensures Valid() && Archived() == old(Archived()) + [r]
      ensures var frame, before := Frame(codec, r), old(segments);
              if !old(writing) || old(segmentBytes) + |frame| > segmentSizeLimit then segments == before + [frame]
              else before != [] && segments == before[..|before| - 1] + [before[|before| - 1] + frame]
      ensures totalRecords == old(totalRecords) + 1
      ensures maxVersion >= r.version && maxVersion >= old(maxVersion) && maxVersion in {r.version, old(maxVersion)}
      ensures old(minVersion) > 0 ==> minVersion <= r.version && minVersion <= old(minVersion)
      ensures minVersion in {r.version, old(minVersion)} && (r.version > 0 ==> minVersion > 0)
    {
      hide Frame, Fits, Frames, AllFit, Concat;
      if !writing || segmentBytes + |Frame(codec, r)| > segmentSizeLimit {
        Rotate();
      }
      ghost var rotated := segments;
      Append(r);
      assert [] + Frame(codec, r) == Frame(codec, r);
      assert rotated[..|rotated| - 1] + [rotated[|rotated| - 1] + Frame(codec, r)] == segments;
      assert rotated == old(segments) + [[]] ==> rotated[..|rotated| - 1] == old(segments);
      if minVersion == 0 || r.version < minVersion {
        minVersion := r.version;
      }
      if r.version > maxVersion {
        maxVersion := r.version;
      }
      totalRecords := totalRecords + 1;
    }
  }

  lemma GrownLast(parts: seq<seq<Record>>, r: Record)
    requires parts != []
    ensures Concat(parts[|parts| - 1 := parts[|parts| - 1] + [r]]) == Concat(parts) + [r]
  {
    var grown := parts[|parts| - 1 := parts[|parts| - 1] + [r]];
    assert grown[..|parts| - 1] == parts[..|parts| - 1];
  }

  lemma GrownPart(c: Codec, part: seq<Record>, r: Record)
    requires AllFit(c, part) && Fits(c, r)
    ensures AllFit(c, part + [r]) && Frames(c, part + [r]) == Frames(c, part) + Frame(c, r)
  {
    assert (part + [r])[..|part|] == part;
  }

  // ---------------------------------------------------------------- reading the archive

  function After(rs: seq<Record>, version: nat): (r: seq<Record>) {
    if rs == [] then []
    else After(rs[..|rs| - 1], version) + if rs[|rs| - 1].version > version then [rs[|rs| - 1]] else []
  }

  function UpTo(rs: seq<Record>, version: nat): (r: seq<Record>) {
    if rs == [] then []
    else UpTo(rs[..|rs| - 1], version) + if rs[|rs| - 1].version <= version then [rs[|rs| - 1]] else []
  }

  ghost predicate Increasing(rs: seq<Record>) {
    forall i, j :: 0 <= i < j < |rs| ==> rs[i].version < rs[j].version
  }

  /** Stable insertion from the right: r goes after everything not newer than it. */
  function InsertByVersion(rs: seq<Record>, r: Record): (s: seq<Record>) {
    if rs == [] || rs[|rs| - 1].version <= r.version then rs + [r]
    else InsertByVersion(rs[..|rs| - 1], r) + [rs[|rs| - 1]]
  }

  /** The stable sort by version. */
  function SortByVersion(rs: seq<Record>): (s: seq<Record>) {
    if rs == [] then [] else InsertByVersion(SortByVersion(rs[..|rs| - 1]), rs[|rs| - 1])
  }

  ghost predicate Ordered(rs: seq<Record>) {
    forall i, j :: 0 <= i < j < |rs| ==> rs[i].version <= rs[j].version
  }

  /** The records of one version, in order. */
  function OfVersion(rs: seq<Record>, v: nat): (r: seq<Record>) {
    if rs == [] then []
    else OfVersion(rs[..|rs| - 1], v) + if rs[|rs| - 1].version == v then [rs[|rs| - 1]] else []
  }

  lemma OfVersionSnoc(rs: seq<Record>, r: Record, v: nat)
    ensures OfVersion(rs + [r], v) == OfVersion(rs, v) + if r.version == v then [r] else []
  {
    assert (rs + [r])[..|rs|] == rs;
  }

  lemma OrderedSnoc(rs: seq<Record>, r: Record)
    requires Ordered(rs) && forall x :: x in multiset(rs) ==> x.version <= r.version
    ensures Ordered(rs + [r])
  {
    forall i | 0 <= i < |rs| ensures rs[i].version <= r.version {
      assert rs[i] in multiset(rs);
    }
  }

  lemma OrderedFront(rs: seq<Record>)
    requires Ordered(rs) && rs != []
    ensures Ordered(rs[..|rs| - 1]) && forall x :: x in multiset(rs) ==> x.version <= rs[|rs| - 1].version
  {
  }

  lemma {:induction false} InsertSorts(rs: seq<Record>, r: Record)
    requires Ordered(rs)
    ensures Ordered(InsertByVersion(rs, r)) && multiset(InsertByVersion(rs, r)) == multiset(rs) + multiset{r}
  {
    hide Ordered;
    if rs == [] {
      OrderedSnoc(rs, r);
    } else {
      var front, last := rs[..|rs| - 1], rs[|rs| - 1];
      OrderedFront(rs);
      if last.version <= r.version {
        OrderedSnoc(rs, r);
      } else {
        InsertSorts(front, r);
        assert rs == front + [last];
        OrderedSnoc(InsertByVersion(front, r), last);
      }
    }
  }

  /** Records of one version stay in order: the inserted one goes behind them. */
  lemma {:induction false} InsertIsStable(rs: seq<Record>, r: Record, v: nat)
    ensures OfVersion(InsertByVersion(rs, r), v) == OfVersion(rs + [r], v)
  {
    hide OfVersion;
    if rs != [] && rs[|rs| - 1].version > r.version {
      var front, last := rs[..|rs| - 1], rs[|rs| - 1];
      InsertIsStable(front, r, v);
      assert rs == front + [last];
      OfVersionSnoc(InsertByVersion(front, r), last, v);
      OfVersionSnoc(front, last, v);
      OfVersionSnoc(front, r, v);
      OfVersionSnoc(rs, r, v);
    }
  }

  /** The result is in version order and holds the same records, those of one version in their old order. */
  lemma {:induction false} SortSorts(rs: seq<Record>, v: nat)
    ensures Ordered(SortByVersion(rs)) && multiset(SortByVersion(rs)) == multiset(rs)
    ensures OfVersion(SortByVersion(rs), v) == OfVersion(rs, v)
  {
    hide OfVersion, InsertByVersion;
    if rs != [] {
      var front, last := rs[..|rs| - 1], rs[|rs| - 1];
      SortSorts(front, v);
      assert rs == front + [last];
      InsertSorts(SortByVersion(front), last);
      InsertIsStable(SortByVersion(front), last, v);
      OfVersionSnoc(SortByVersion(front), last, v);
      OfVersionSnoc(front, last, v);
    }
  }

  lemma SameLength(a: seq<Record>, b: seq<Record>)
    requires multiset(a) == multiset(b)
    ensures |a| == |b|
  {
    assert |multiset(a)| == |a| && |multiset(b)| == |b|;
  }

  /** The newest record comes last. */
  lemma NewestLast(a: seq<Record>, history: seq<Record>)
    requires Ordered(a) && Increasing(history) && multiset(a) == multiset(history) && a != []
    ensures |a| == |history| && a[|a| - 1] == history[|a| - 1]
  {
    SameLength(a, history);
    var n := |a| - 1;
    assert history[n] in multiset(a) && a[n] in multiset(history);
    var i :| 0 <= i < |a| && a[i] == history[n];
    var j :| 0 <= j < |history| && history[j] == a[n];
    assert a[i].version <= a[n].version;
  }

  lemma WithoutLast(a: seq<Record>, b: seq<Record>)
    requires a != [] && b != [] && multiset(a) == multiset(b) && a[|a| - 1] == b[|b| - 1]
    ensures multiset(a[..|a| - 1]) == multiset(b[..|b| - 1])
  {
    var x := a[|a| - 1];
    assert a == a[..|a| - 1] + [x] && b == b[..|b| - 1] + [x];
    assert multiset(a) == multiset(a[..|a| - 1]) + multiset{x};
    assert multiset(b) == multiset(b[..|b| - 1]) + multiset{x};
    assert multiset(a[..|a| - 1]) == multiset(a) - multiset{x};
  }

  /** There is one way to put the records of a history in order. */
  lemma {:induction false} OneOrder(a: seq<Record>, history: seq<Record>)
    requires Ordered(a) && Increasing(history) && multiset(a) == multiset(history)
    ensures a == history
  {
    SameLength(a, history);
    if a != [] {
      var n := |a| - 1;
      NewestLast(a, history);
      WithoutLast(a, history);
      OneOrder(a[..n], history[..n]);
      assert a == a[..n] + [a[n]] && history == history[..n] + [history[n]];
    }
  }

  /** Records of a history, archived in whatever order, are sorted back into it. */
  lemma SortRestores(rs: seq<Record>, history: seq<Record>)
    requires Increasing(history) && multiset(rs) == multiset(history)
    ensures SortByVersion(rs) == history
  {
    SortSorts(rs, 0);
    OneOrder(SortByVersion(rs), history);
  }

  lemma {:induction false} AfterConcat(a: seq<Record>, b: seq<Record>, version: nat)
    ensures After(a + b, version) == After(a, version) + After(b, version)
  {
    hide After;
    NothingAfter([], version);
    if b == [] {
      assert a + b == a;
    } else {
      var front, last := b[..|b| - 1], b[|b| - 1];
      AfterConcat(a, front, version);
      assert a + b == (a + front) + [last] && b == front + [last];
      AfterAppend(a + front, last, version);
      AfterAppend(front, last, version);
    }
  }

  lemma NoParts(parts: seq<seq<Record>>)
    ensures Concat(parts[..0]) == []
  {
  }

  lemma ConcatSnoc(parts: seq<seq<Record>>, i: nat)
    requires i < |parts|
    ensures Concat(parts[..i + 1]) == Concat(parts[..i]) + parts[i]
  {
    assert parts[..i + 1][..i] == parts[..i];
  }

  /** Reads one segment up to its first incomplete or damaged frame, keeping the newer records. */
  method ReadSegment(c: Codec, data: seq<Byte>, from: nat) returns (rs: seq<Record>)
    ensures rs == After(ScanFrom(c, data, 0), from)
  {
    hide Crc32, FromLe, ScanFrom, After, FrameAt;
    rs := [];
    var pos := 0;
    ghost var read: seq<Record> := [];
    NothingAfter([], from);
    assert [] + ScanFrom(c, data, 0) == ScanFrom(c, data, 0);
    while true
      invariant pos <= |data|
      invariant read + ScanFrom(c, data, pos) == ScanFrom(c, data, 0)
      invariant rs == After(read, from)
      decreases |data| - pos
    {
      ShortEnd(c, data, pos);
      if |data| - pos < HEADER {
        break;
      }
      var len := FromLe(data[pos..pos + 4]);
      var crc := FromLe(data[pos + 4..pos + 8]);
      FrameRead(c, data, pos, len, crc);
      if len > |data| - (pos + HEADER) {
        break;
      }
      var payload := data[pos + HEADER..pos + HEADER + len];
      if Crc32(payload) != crc {
        break;
      }
      var rec := c.dec(payload);
      if rec.None? {
        break;
      }
      if rec.value.version > from {
        rs := rs + [rec.value];
      }
      AfterAppend(read, rec.value, from);
      ScanNext(c, data, pos);
      assert read + ([rec.value] + ScanFrom(c, data, pos + HEADER + len))
          == (read + [rec.value]) + ScanFrom(c, data, pos + HEADER + len);
      read := read + [rec.value];
      pos := pos + HEADER + len;
    }
    ScanNext(c, data, pos);
    assert read + [] == read;
  }

  /** Reads every segment in order and sorts by version. */
  method ReadArchiveRecords(c: Codec, segments: seq<seq<Byte>>, from: nat, ghost parts: seq<seq<Record>>)
    returns (rs: seq<Record>)
    requires Lawful(c) && |parts| == |segments|
    requires forall i :: 0 <= i < |parts| ==> segments[i] == Frames(c, parts[i]) && AllFit(c, parts[i])
    ensures rs == SortByVersion(After(Concat(parts), from))
  {
    hide ScanFrom, Lawful, SortByVersion, After, Concat, Frames, AllFit;
    rs := [];
    NothingAfter([], from);
    NoParts(parts);
    for i := 0 to |segments|
      invariant rs == After(Concat(parts[..i]), from)
    {
      var more := ReadSegment(c, segments[i], from);
      CleanLog(c, parts[i]);
      AfterConcat(Concat(parts[..i]), parts[i], from);
      ConcatSnoc(parts, i);
      rs := rs + more;
    }
    assert parts[..|parts|] == parts;
    rs := SortByVersion(rs);
  }

  // ---------------------------------------------------------------- cutting a history at a version

  lemma {:induction false} AfterIncreasing(rs: seq<Record>, version: nat)
    requires Increasing(rs)
    ensures Increasing(After(rs, version))
    ensures forall r :: r in After(rs, version) ==> r in rs && r.version > version
  {
    if rs != [] {
      AfterIncreasing(rs[..|rs| - 1], version);
      var front, last := After(rs[..|rs| - 1], version), rs[|rs| - 1];
      forall r | r in front ensures r.version < last.version {
        assert r in rs[..|rs| - 1];
      }
    }
  }

  lemma {:induction false} NothingAfter(rs: seq<Record>, version: nat)
    requires forall i :: 0 <= i < |rs| ==> rs[i].version <= version
    ensures After(rs, version) == []
  {
    if rs != [] {
      NothingAfter(rs[..|rs| - 1], version);
    }
  }

  /** A history in version order is its part up to v followed by the rest. */
  lemma {:induction false} CutAtVersion(rs: seq<Record>, version: nat)
    requires Increasing(rs)
    ensures rs == UpTo(rs, version) + After(rs, version)
    ensures forall r :: r in UpTo(rs, version) ==> r.version <= version
  {
    hide UpTo, After;
    UpToNone(version);
    NothingAfter([], version);
    if rs != [] {
      var front, last := rs[..|rs| - 1], rs[|rs| - 1];
      CutAtVersion(front, version);
      assert rs == front + [last];
      UpToAppend(front, last, version);
      AfterAppend(front, last, version);
      if last.version <= version {
        NothingAfter(front, version);
      }
    }
  }

  lemma UpToAppend(rs: seq<Record>, r: Record, v: nat)
    ensures UpTo(rs + [r], v) == UpTo(rs, v) + if r.version <= v then [r] else []
  {
    assert (rs + [r])[..|rs|] == rs;
  }

  lemma AfterAppend(rs: seq<Record>, r: Record, v: nat)
    ensures After(rs + [r], v) == After(rs, v) + if r.version > v then [r] else []
  {
    assert (rs + [r])[..|rs|] == rs;
  }

  /** Cutting twice: up to v is up to b, then what lies between. */
  lemma {:induction false} UpToSplits(rs: seq<Record>, b: nat, v: nat)
    requires Increasing(rs) && b <= v
    ensures UpTo(rs, v) == UpTo(rs, b) + UpTo(After(rs, b), v)
  {
    hide UpTo, After;
    UpToNone(b);
    UpToNone(v);
    NothingAfter([], b);
    if rs != [] {
      var front, last := rs[..|rs| - 1], rs[|rs| - 1];
      UpToSplits(front, b, v);
      assert rs == front + [last];
      UpToAppend(front, last, v);
      UpToAppend(front, last, b);
      AfterAppend(front, last, b);
      if last.version > b {
        UpToAppend(After(front, b), last, v);
      } else {
        NothingAfter(rs, b);
        NothingAfter(front, b);
      }
    }
  }

  // ---------------------------------------------------------------- point-in-time restore

  datatype Report = Report(baseVersion: nat, finalVersion: nat, replayed: nat)

  /** Replays archived records up to the first one newer than v. */
  method RollForward(base: Db, b: nat, records: seq<Record>, v: nat) returns (db: Db, final: nat, n: nat)
    ensures n <= |records| && db == Replay(base, records[..n]) && UpTo(records[..n], v) == records[..n]
    ensures n < |records| ==> records[n].version > v
    ensures final == if n == 0 then b else records[n - 1].version
  {
    hide Replay, UpTo;
    db, final, n := base, b, 0;
    assert records[..0] == [];
    ReplayNone(base);
    UpToNone(v);
    while n < |records|
      invariant n <= |records|
      invariant db == Replay(base, records[..n])
      invariant UpTo(records[..n], v) == records[..n]
      invariant final == if n == 0 then b else records[n - 1].version
      decreases |records| - n
    {
      var r := records[n];
      UpToSnoc(records, n, v);
      if r.version > v {
        break;
      }
      ReplaySnoc(base, records, n);
      db := ApplyChanges(db, r.changes);
      final := r.version;
      n := n + 1;
      assert records[..n] == records[..n - 1] + [r];
    }
  }

  /**
   * Restores a backup and rolls the archive forward to the last commit not newer than v. Into an
   * empty store, from a backup of the history up to b and an archive of every later commit, this
   * gives the store after the history up to v.
   */
  method RestoreToVersion(store: Db, backup: Db, b: nat, records: seq<Record>, v: nat, ghost history: seq<Record>)
    returns (db: Db, report: Report)
    requires Increasing(history)
    ensures records == After(history, b)
            && b <= v && store == map[] && Same(backup, Replay(map[], UpTo(history, b)))
            ==> Same(db, Replay(map[], UpTo(history, v)))
    ensures records == After(history, b) ==>
              var rolled := UpTo(After(history, b), v);
              report == Report(b, if rolled == [] then b else rolled[|rolled| - 1].version, |rolled|)
  {
    hide Replay, UpTo, After, Increasing, Same;
    AfterIncreasing(history, b);
    ghost var good := records == After(history, b);
    // Each map of the backup is opened, cleared and filled.
    db := store + backup;
    ghost var base := db;
    var final, n;
    db, final, n := RollForward(db, b, records, v);
    if good {
      UpToPrefix(records, n, v);
      assert records[..n] == UpTo(After(history, b), v);
      RolledForward(backup, b, v, history, records[..n]);
    }
    assert store == map[] ==> base == backup;
    report := Report(b, final, n);
  }

  /** The same, reading the archive from its segments, however they were cut and whatever their order. */
  method RestorePitr(c: Codec, store: Db, backup: Db, b: nat, segments: seq<seq<Byte>>, v: nat,
                     ghost parts: seq<seq<Record>>, ghost history: seq<Record>)
    returns (db: Db, report: Report)
    requires Lawful(c) && |parts| == |segments|
    requires forall i :: 0 <= i < |parts| ==> segments[i] == Frames(c, parts[i]) && AllFit(c, parts[i])
    requires Increasing(history)
    ensures multiset(After(Concat(parts), b)) == multiset(After(history, b))
            && b <= v && store == map[] && Same(backup, Replay(map[], UpTo(history, b)))
            ==> Same(db, Replay(map[], UpTo(history, v)))
  {
    hide Replay, UpTo, After, SortByVersion, Increasing, Same, Concat, Frames, AllFit;
    var records := ReadArchiveRecords(c, segments, b, parts);
    AfterIncreasing(history, b);
    if multiset(After(Concat(parts), b)) == multiset(After(history, b)) {
      SortRestores(After(Concat(parts), b), After(history, b));
    }
    db, report := RestoreToVersion(store, backup, b, records, v, history);
  }

  lemma RolledForward(backup: Db, b: nat, v: nat, history: seq<Record>, replayed: seq<Record>)
    requires Increasing(history) && replayed == UpTo(After(history, b), v)
    ensures b <= v && Same(backup, Replay(map[], UpTo(history, b)))
            ==> Same(Replay(backup, replayed), Replay(map[], UpTo(history, v)))
  {
    hide Replay, UpTo, After;
    if b <= v && Same(backup, Replay(map[], UpTo(history, b))) {
      UpToSplits(history, b, v);
      ReplayConcat(map[], UpTo(history, b), replayed);
      ReplaySame(backup, Replay(map[], UpTo(history, b)), replayed);
    }
  }

  /** Applies the changes of one record in order, creating maps as needed. */
  method ApplyChanges(db: Db, cs: seq<Change>) returns (r: Db)
    ensures r == ApplyAll(db, cs)
  {
    r := db;
    for i := 0 to |cs|
      invariant r == ApplyAll(db, cs[..i])
    {
      assert cs[..i + 1][..i] == cs[..i];
      r := Apply(r, cs[i]);
    }
    assert cs[..|cs|] == cs;
  }

  lemma ReplayNone(db: Db)
    ensures Replay(db, []) == db
  {
  }

  lemma UpToNone(v: nat)
    ensures UpTo([], v) == []
  {
  }

  lemma ReplaySnoc(db: Db, rs: seq<Record>, n: nat)
    requires n < |rs|
    ensures Replay(db, rs[..n + 1]) == ApplyAll(Replay(db, rs[..n]), rs[n].changes)
  {
    assert rs[..n + 1][..n] == rs[..n];
    ApplyAllConcat(db, Changes(rs[..n]), rs[n].changes);
  }

  lemma UpToSnoc(rs: seq<Record>, n: nat, v: nat)
    requires n < |rs|
    ensures UpTo(rs[..n + 1], v) == UpTo(rs[..n], v) + if rs[n].version <= v then [rs[n]] else []
  {
    assert rs[..n + 1][..n] == rs[..n];
  }

  /** When replay stops at n, the rest of an increasing list is newer than v. */
  lemma {:induction false} UpToPrefix(rs: seq<Record>, n: nat, v: nat)
    requires Increasing(rs) && n <= |rs| && UpTo(rs[..n], v) == rs[..n]
    requires n < |rs| ==> rs[n].version > v
    ensures UpTo(rs, v) == rs[..n]
  {
    if n < |rs| {
      assert rs[..|rs| - 1][..n] == rs[..n];
      UpToPrefix(rs[..|rs| - 1], n, v);
      assert rs[n].version <= rs[|rs| - 1].version;
    } else {
      assert rs[..n] == rs;
    }
  }
}
