/**
 * The write-ahead log as bytes: length, checksum and payload per record, appended and read
 * back. A torn last frame is recognised by its length alone.
 */
module WalFrames {
  import opened Bytes
  import opened Encoding
  import opened Checksum
  import opened ChangeLog

  /** The record serializer: any encoding with an inverse. */
  datatype Codec = Codec(enc: Record -> seq<Byte>, dec: seq<Byte> -> Option<Record>)

  ghost predicate Lawful(c: Codec) {
    forall r :: c.dec(c.enc(r)) == Some(r)
  }

  /** The payload length fits the 32-bit length field. */
  ghost predicate Fits(c: Codec, r: Record) {
    |c.enc(r)| < Pow256(4)
  }

  ghost predicate AllFit(c: Codec, rs: seq<Record>) {
    forall r :: r in rs ==> Fits(c, r)
  }

  const HEADER: nat := 8

  /** One record on disk; a length that does not fit is cut to 32 bits. */
  function Frame(c: Codec, r: Record): (bs: seq<Byte>)
    ensures |bs| == HEADER + |c.enc(r)|
  {
    var payload := c.enc(r);
    ToLe(|payload|, 4) + ToLe(Crc32(payload), 4) + payload
  }

  function Frames(c: Codec, rs: seq<Record>): (bs: seq<Byte>) {
    if rs == [] then [] else Frames(c, rs[..|rs| - 1]) + Frame(c, rs[|rs| - 1])
  }

  /** The record whose frame starts at `pos`, if a whole and intact one does, and where it ends. */
  function FrameAt(c: Codec, data: seq<Byte>, pos: nat): (r: Option<(Record, nat)>)
    requires pos <= |data|
    ensures r.Some? ==> pos + HEADER <= r.value.1 <= |data|
  {
    if |data| - pos < HEADER then None else
      var len := FromLe(data[pos..pos + 4]);
      var crc := FromLe(data[pos + 4..pos + 8]);
      if len > |data| - (pos + HEADER) then None else
        var payload := data[pos + HEADER..pos + HEADER + len];
        if Crc32(payload) != crc then None else
          match c.dec(payload)
          case None => None
          case Some(rec) => Some((rec, pos + HEADER + len))
  }

  /** The records read from `pos` on. */
  function ScanFrom(c: Codec, data: seq<Byte>, pos: nat): (rs: seq<Record>)
    requires pos <= |data|
    decreases |data| - pos
  {
    match FrameAt(c, data, pos)
    case None => []
    case Some((rec, end)) => [rec] + ScanFrom(c, data, end)
  }

  /** Where the last intact record ends. */
  function ValidEnd(c: Codec, data: seq<Byte>, pos: nat): (end: nat)
    requires pos <= |data|
    ensures pos <= end <= |data|
    decreases |data| - pos
  {
    match FrameAt(c, data, pos)
    case None => pos
    case Some((_, next)) => ValidEnd(c, data, next)
  }

  // ---------------------------------------------------------------- the log file

  lemma ShortEnd(c: Codec, data: seq<Byte>, pos: nat)
    requires pos <= |data|
    ensures |data| - pos < HEADER ==> FrameAt(c, data, pos) == None
  {
  }

  /** What the fields of a frame say about it. */
  lemma FrameRead(c: Codec, data: seq<Byte>, pos: nat, len: nat, crc: nat)
    requires pos + HEADER <= |data| && len == FromLe(data[pos..pos + 4]) && crc == FromLe(data[pos + 4..pos + 8])
    ensures FrameAt(c, data, pos) ==
      if len > |data| - (pos + HEADER) then None
      else if Crc32(data[pos + HEADER..pos + HEADER + len]) != crc then None
      else match c.dec(data[pos + HEADER..pos + HEADER + len])
           case None => None
           case Some(rec) => Some((rec, pos + HEADER + len))
  {
    hide Crc32, FromLe;
  }

  lemma Regroup(rs: seq<Record>, r: Record, more: seq<Record>)
    ensures rs + ([r] + more) == (rs + [r]) + more
  {
  }

  /** One step of a scan. */
  lemma ScanNext(c: Codec, data: seq<Byte>, pos: nat)
    requires pos <= |data|
    ensures ScanFrom(c, data, pos) == match FrameAt(c, data, pos)
                                      case None => []
                                      case Some((rec, end)) => [rec] + ScanFrom(c, data, end)
    ensures ValidEnd(c, data, pos) == match FrameAt(c, data, pos)
                                      case None => pos
                                      case Some((rec, end)) => ValidEnd(c, data, end)
  {
    hide FrameAt;
  }

  class WalManager {
    var data: seq<Byte>

    constructor (initial: seq<Byte>)
      ensures data == initial
    {
      data := initial;
    }

    method AppendUnsynced(c: Codec, r: Record)
      modifies this
      ensures data == old(data) + Frame(c, r)
    {
      var payload := c.enc(r);
      var buf := ToLe(|payload|, 4);
      buf := buf + ToLe(Crc32(payload), 4);
      buf := buf + payload;
      data := data + buf;
    }

    method TruncateTo(len: nat)
      requires len <= |data|
      modifies this
      ensures data == old(data)[..len]
    {
      data := data[..len];
    }

    method Clear()
      modifies this
      ensures data == []
    {
      data := [];
    }

    /** Reads every intact record and cuts the file after the last one. */
    method ReadAllRecords(c: Codec) returns (rs: seq<Record>)
      modifies this
      ensures rs == ScanFrom(c, old(data), 0)
      ensures data == old(data)[..ValidEnd(c, old(data), 0)]
    {
      hide Crc32, FromLe, FrameAt, ScanFrom, ValidEnd;
      var file := data;
      rs := [];
      var validEnd: nat := 0;
      assert rs + ScanFrom(c, file, 0) == ScanFrom(c, file, 0);
      while true
        invariant data == file && validEnd <= |file|
        invariant rs + ScanFrom(c, file, validEnd) == ScanFrom(c, file, 0)
        invariant ValidEnd(c, file, validEnd) == ValidEnd(c, file, 0)
        decreases |file| - validEnd
      {
        ShortEnd(c, file, validEnd);
        ScanNext(c, file, validEnd);
        if |file| - validEnd < HEADER {
          break;
        }
        var len := FromLe(file[validEnd..validEnd + 4]);
        var crc := FromLe(file[validEnd + 4..validEnd + 8]);
        FrameRead(c, file, validEnd, len, crc);
        if len > |file| - (validEnd + HEADER) {
          break;
        }
        var payload := file[validEnd + HEADER..validEnd + HEADER + len];
        if Crc32(payload) != crc {
          break;
        }
        var rec := c.dec(payload);
        if rec.None? {
          break;
        }
        var end := validEnd + HEADER + len;
        Regroup(rs, rec.value, ScanFrom(c, file, end));
        rs := rs + [rec.value];
        validEnd := end;
      }
      assert FrameAt(c, file, validEnd) == None;
      ScanNext(c, file, validEnd);
      assert rs + [] == rs;
      if |file| > validEnd {
        data := file[..validEnd];
      } else {
        assert file[..validEnd] == file;
      }
    }
  }

  // ---------------------------------------------------------------- reading back

  /** A whole frame is read back wherever it stands and whatever follows. */
  lemma FrameReads(c: Codec, before: seq<Byte>, r: Record, after: seq<Byte>)
    requires Lawful(c) && Fits(c, r)
    ensures FrameAt(c, before + Frame(c, r) + after, |before|) == Some((r, |before| + |Frame(c, r)|))
  {
    hide Crc32;
    var data, pos, payload := before + Frame(c, r) + after, |before|, c.enc(r);
    assert data[pos..pos + 4] == ToLe(|payload|, 4);
    assert data[pos + 4..pos + 8] == ToLe(Crc32(payload), 4);
    assert data[pos + 8..pos + 8 + |payload|] == payload;
    Powers();
    LeRoundTrip(|payload|, 4);
    LeRoundTrip(Crc32(payload), 4);
  }

  /** A strict prefix of a frame is not a record, whatever the checksum. */
  lemma TornFrameStops(c: Codec, before: seq<Byte>, r: Record, n: nat)
    requires Fits(c, r) && n < |Frame(c, r)|
    ensures FrameAt(c, before + Frame(c, r)[..n], |before|) == None
  {
    hide Crc32;
    var data, pos, payload := before + Frame(c, r)[..n], |before|, c.enc(r);
    if n >= HEADER {
      assert data[pos..pos + 4] == Frame(c, r)[..4] == ToLe(|payload|, 4);
      LeRoundTrip(|payload|, 4);
    }
  }

  lemma {:induction false} FramesConcat(c: Codec, a: seq<Record>, b: seq<Record>)
    ensures Frames(c, a + b) == Frames(c, a) + Frames(c, b)
  {
    hide Frame;
    if b == [] {
      assert a + b == a;
    } else {
      FramesConcat(c, a, b[..|b| - 1]);
      assert (a + b)[..|a + b| - 1] == a + b[..|b| - 1];
    }
  }

  lemma FramesFirst(c: Codec, r: Record, rs: seq<Record>)
    ensures Frames(c, [r] + rs) == Frame(c, r) + Frames(c, rs)
  {
    hide Frame;
    FramesConcat(c, [r], rs);
    assert [r][..0] == [];
  }

  /** Whole frames, then bytes that hold no record at their start: exactly the frames are read. */
  lemma {:induction false} ScanReads(c: Codec, before: seq<Byte>, rs: seq<Record>, tail: seq<Byte>)
    requires Lawful(c) && AllFit(c, rs)
    requires FrameAt(c, before + Frames(c, rs) + tail, |before + Frames(c, rs)|) == None
    ensures ScanFrom(c, before + Frames(c, rs) + tail, |before|) == rs
    ensures ValidEnd(c, before + Frames(c, rs) + tail, |before|) == |before| + |Frames(c, rs)|
    decreases rs
  {
    hide Frame, FrameAt, Fits, Lawful;
    if rs == [] {
      assert before + Frames(c, rs) + tail == before + tail;
    } else {
      var r, rest := rs[0], rs[1..];
      assert rs == [r] + rest && r in rs;
      FramesFirst(c, r, rest);
      assert before + Frames(c, rs) + tail == before + Frame(c, r) + (Frames(c, rest) + tail);
      assert before + Frames(c, rs) + tail == (before + Frame(c, r)) + Frames(c, rest) + tail;
      FrameReads(c, before, r, Frames(c, rest) + tail);
      ScanReads(c, before + Frame(c, r), rest, tail);
    }
  }

  /**
   * Torn tail: records followed by any strict prefix of one further frame read as exactly those
   * records, and the file is cut to their length. No property of the checksum is used.
   */
  lemma TornTail(c: Codec, rs: seq<Record>, r: Record, n: nat)
    requires Lawful(c) && AllFit(c, rs) && Fits(c, r) && n < |Frame(c, r)|
    ensures var data := Frames(c, rs) + Frame(c, r)[..n];
            ScanFrom(c, data, 0) == rs && data[..ValidEnd(c, data, 0)] == Frames(c, rs)
  {
    hide Frame, FrameAt, Frames;
    TornFrameStops(c, Frames(c, rs), r, n);
    assert [] + Frames(c, rs) + Frame(c, r)[..n] == Frames(c, rs) + Frame(c, r)[..n];
    assert [] + Frames(c, rs) == Frames(c, rs);
    ScanReads(c, [], rs, Frame(c, r)[..n]);
  }

  /** A log without a torn tail reads as its records and is left as it is. */
  lemma CleanLog(c: Codec, rs: seq<Record>)
    requires Lawful(c) && AllFit(c, rs)
    ensures ScanFrom(c, Frames(c, rs), 0) == rs && ValidEnd(c, Frames(c, rs), 0) == |Frames(c, rs)|
  {
    hide Frame, Frames;
    assert [] + Frames(c, rs) + [] == Frames(c, rs) && [] + Frames(c, rs) == Frames(c, rs);
    ScanReads(c, [], rs, []);
  }

  /** After a torn tail was cut, reading again changes nothing and later appends are read after the rest. */
  lemma TornTailRecovers(c: Codec, rs: seq<Record>, r: Record, n: nat, later: seq<Record>)
    requires Lawful(c) && AllFit(c, rs) && AllFit(c, later) && Fits(c, r) && n < |Frame(c, r)|
    ensures var data := Frames(c, rs) + Frame(c, r)[..n];
            var cut := data[..ValidEnd(c, data, 0)];
            && ScanFrom(c, cut, 0) == rs && cut[..ValidEnd(c, cut, 0)] == cut
            && ScanFrom(c, cut + Frames(c, later), 0) == rs + later
  {
    hide Frame, Frames, ScanFrom, ValidEnd, Fits;
    TornTail(c, rs, r, n);
    CleanLog(c, rs);
    FramesConcat(c, rs, later);
    CleanLog(c, rs + later);
  }

  /**
   * A crash leaves some byte prefix of the log. It reads as the longest prefix of the records
   * whose frames survive whole.
   */
  lemma {:induction false} AnyCut(c: Codec, rs: seq<Record>, n: nat) returns (k: nat)
    requires Lawful(c) && AllFit(c, rs) && n <= |Frames(c, rs)|
    ensures k <= |rs| && ScanFrom(c, Frames(c, rs)[..n], 0) == rs[..k]
    ensures |Frames(c, rs[..k])| <= n && (k < |rs| ==> n < |Frames(c, rs[..k + 1])|)
    decreases rs
  {
    hide Frame, ScanFrom, Fits, Frames;
    if n == |Frames(c, rs)| {
      k := |rs|;
      CleanLog(c, rs);
      assert rs[..k] == rs && Frames(c, rs)[..n] == Frames(c, rs);
    } else {
      NoFrames(c);
      var front, last := rs[..|rs| - 1], rs[|rs| - 1];
      FramesLast(c, rs);
      assert last in rs && forall r :: r in front ==> r in rs;
      if n < |Frames(c, front)| {
        assert front[..|front|] == front;
        k := AnyCut(c, front, n);
        assert Frames(c, rs)[..n] == Frames(c, front)[..n];
        assert k < |front|;
        assert front[..k] == rs[..k] && front[..k + 1] == rs[..k + 1];
      } else {
        k := |front|;
        CutInLast(c, front, last, n);
        assert rs[..k + 1] == rs;
      }
    }
  }

  lemma NoFrames(c: Codec)
    ensures Frames(c, []) == []
  {
  }

  lemma FramesLast(c: Codec, rs: seq<Record>)
    requires rs != []
    ensures Frames(c, rs) == Frames(c, rs[..|rs| - 1]) + Frame(c, rs[|rs| - 1])
  {
    hide Frame;
  }

  /** A cut inside the last frame leaves the records before it. */
  lemma CutInLast(c: Codec, front: seq<Record>, last: Record, n: nat)
    requires Lawful(c) && AllFit(c, front) && Fits(c, last)
    requires |Frames(c, front)| <= n < |Frames(c, front)| + |Frame(c, last)|
    ensures ScanFrom(c, (Frames(c, front) + Frame(c, last))[..n], 0) == front
  {
    hide Frame, ScanFrom, Fits, Frames;
    var m := n - |Frames(c, front)|;
    TornTail(c, front, last, m);
    assert (Frames(c, front) + Frame(c, last))[..n] == Frames(c, front) + Frame(c, last)[..m];
  }
}
