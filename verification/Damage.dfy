/**
 * What a changed byte does to the files: the log is read up to the damaged record and no further,
 * and a damaged backup is not accepted with sections of the same length.
 */
module Damage {
  import opened Bytes
  import opened Encoding
  import opened Checksum
  import opened ChangeLog
  import opened WalFrames
  import Backup

  // ---------------------------------------------------------------- changed bytes and checksums

  /** Strings of the same length that differ in exactly one place. */
  ghost predicate DifferAt(a: seq<Byte>, b: seq<Byte>, i: nat) {
    i < |a| == |b| && a[i] != b[i] && a[..i] == b[..i] && a[i + 1..] == b[i + 1..]
  }

  lemma ChecksumDiffers(a: seq<Byte>, b: seq<Byte>, i: nat)
    requires DifferAt(a, b, i)
    ensures Crc32(a) != Crc32(b)
  {
    assert a == a[..i] + [a[i]] + a[i + 1..] && b == a[..i] + [b[i]] + a[i + 1..];
    OneByteDetected(a[..i], a[i], b[i], a[i + 1..]);
  }

  lemma NumberDiffers(a: seq<Byte>, b: seq<Byte>)
    requires |a| == |b| && a != b
    ensures FromLe(a) != FromLe(b)
  {
    LeInverse(a);
    LeInverse(b);
  }

  /** A part of changed bytes is unchanged or differs in the same place. */
  lemma PartOfChanged(bytes: seq<Byte>, i: nat, b: Byte, from: nat, to: nat)
    requires i < |bytes| && bytes[i] != b && from <= to <= |bytes|
    ensures if from <= i < to then DifferAt(bytes[from..to], bytes[i := b][from..to], i - from)
            else bytes[i := b][from..to] == bytes[from..to]
  {
    var part, changed := bytes[from..to], bytes[i := b][from..to];
    if from <= i < to {
      assert part[..i - from] == changed[..i - from] && part[i - from + 1..] == changed[i - from + 1..];
    }
  }

  // ---------------------------------------------------------------- the log

  /** The bytes are a frame of the payload, as it was written. */
  ghost predicate IsFrame(bytes: seq<Byte>, payload: seq<Byte>) {
    |payload| < Pow256(4) && bytes == ToLe(|payload|, 4) + ToLe(Crc32(payload), 4) + payload
  }

  lemma FieldsOfFrame(bytes: seq<Byte>, payload: seq<Byte>)
    requires IsFrame(bytes, payload)
    ensures |bytes| == HEADER + |payload| && bytes[HEADER..] == payload
    ensures FromLe(bytes[..4]) == |payload| && FromLe(bytes[4..8]) == Crc32(payload)
  {
    hide Crc32, ToLe, FromLe, Pow256;
    Powers();
    LeRoundTrip(|payload|, 4);
    LeRoundTrip(Crc32(payload), 4);
    assert bytes[..4] == ToLe(|payload|, 4) && bytes[4..8] == ToLe(Crc32(payload), 4);
  }

  lemma FrameOfFields(bytes: seq<Byte>)
    requires |bytes| >= HEADER && FromLe(bytes[..4]) == |bytes| - HEADER && FromLe(bytes[4..8]) == Crc32(bytes[HEADER..])
    ensures IsFrame(bytes, bytes[HEADER..])
  {
    hide Crc32, ToLe, FromLe;
    LeInverse(bytes[..4]);
    LeInverse(bytes[4..8]);
    LeBounded(bytes[..4]);
    assert bytes == bytes[..4] + bytes[4..8] + bytes[HEADER..];
  }

  lemma FieldsWithin(data: seq<Byte>, pos: nat, end: nat)
    requires pos + HEADER <= end <= |data|
    ensures data[pos..end][..4] == data[pos..pos + 4] && data[pos..end][4..8] == data[pos + 4..pos + 8]
    ensures data[pos..end][HEADER..] == data[pos + HEADER..end]
  {
    var sum, direct := data[pos..end][4..8], data[pos + 4..pos + 8];
    forall k | 0 <= k < 4 ensures sum[k] == direct[k] {
      assert sum[k] == data[pos + 4 + k];
    }
  }

  /** A record is read at a place exactly when a frame of a payload that decodes to it stands there. */
  lemma FrameExactly(c: Codec, data: seq<Byte>, pos: nat, r: Record, end: nat)
    requires pos <= |data|
    ensures FrameAt(c, data, pos) == Some((r, end)) <==>
              && pos <= end <= |data|
              && exists payload :: IsFrame(data[pos..end], payload) && c.dec(payload) == Some(r)
  {
    hide Crc32, FromLe, IsFrame;
    if FrameAt(c, data, pos) == Some((r, end)) {
      FieldsWithin(data, pos, end);
      FrameOfFields(data[pos..end]);
    }
    if pos <= end <= |data| {
      forall payload | IsFrame(data[pos..end], payload) && c.dec(payload) == Some(r)
        ensures FrameAt(c, data, pos) == Some((r, end))
      {
        FieldsOfFrame(data[pos..end], payload);
        FieldsWithin(data, pos, end);
      }
    }
  }

  /** A frame with one byte changed behind its length is not read, whatever follows. */
  lemma DamagedFrame(c: Codec, before: seq<Byte>, r: Record, i: nat, b: Byte, after: seq<Byte>)
    requires Fits(c, r) && 4 <= i < |Frame(c, r)| && Frame(c, r)[i] != b
    ensures FrameAt(c, before + Frame(c, r)[i := b] + after, |before|) == None
  {
    hide Crc32, FromLe, Frame, ToLe, Pow256;
    var frame, payload := Frame(c, r), c.enc(r);
    var bad := frame[i := b];
    var data, pos := before + bad + after, |before|;
    assert IsFrame(frame, payload) by { FrameIs(c, r); }
    FieldsOfFrame(frame, payload);
    PartOfChanged(frame, i, b, 0, 4);
    PartOfChanged(frame, i, b, 4, 8);
    PartOfChanged(frame, i, b, HEADER, |frame|);
    assert frame[HEADER..|frame|] == payload && frame[0..4] == frame[..4];
    assert data[pos..pos + 4] == bad[0..4] && data[pos + 4..pos + 8] == bad[4..8];
    assert data[pos + HEADER..pos + HEADER + |payload|] == bad[HEADER..|frame|];
    if i < HEADER {
      assert bad[4..8] != frame[4..8];
      NumberDiffers(frame[4..8], bad[4..8]);
    } else {
      ChecksumDiffers(payload, bad[HEADER..|frame|], i - HEADER);
    }
  }

  lemma FrameIs(c: Codec, r: Record)
    requires Fits(c, r)
    ensures IsFrame(Frame(c, r), c.enc(r))
  {
    hide Crc32, ToLe, Pow256;
  }

  /**
   * A log with one changed byte behind the length of some record is read up to that record, and
   * the file is cut there, whatever follows.
   */
  lemma DamagedRecordEndsLog(c: Codec, rs: seq<Record>, r: Record, i: nat, b: Byte, after: seq<Byte>)
    requires Lawful(c) && AllFit(c, rs) && Fits(c, r) && 4 <= i < |Frame(c, r)| && Frame(c, r)[i] != b
    ensures var data := Frames(c, rs) + Frame(c, r)[i := b] + after;
            ScanFrom(c, data, 0) == rs && data[..ValidEnd(c, data, 0)] == Frames(c, rs)
  {
    hide Frame, FrameAt, Frames, ScanFrom, ValidEnd, Fits;
    var data, tail := Frames(c, rs) + Frame(c, r)[i := b] + after, Frame(c, r)[i := b] + after;
    DamagedFrame(c, Frames(c, rs), r, i, b, after);
    assert [] + Frames(c, rs) + tail == data && [] + Frames(c, rs) == Frames(c, rs);
    ScanReads(c, [], rs, tail);
  }

  // ---------------------------------------------------------------- backups

  /**
   * One changed byte in the header of a backup, its checksum included, is always noticed. One in
   * the sections is noticed unless the file then passes for sections of another total length.
   */
  lemma DamagedBackup(bytes: seq<Byte>, info: Backup.Info, ss: seq<Backup.Section>, i: nat, b: Byte,
                      info': Backup.Info, ss': seq<Backup.Section>)
    requires Backup.IsBackup(bytes, info, ss) && i < Backup.HEADER_SIZE + |Backup.EncodeSections(ss)| <= |bytes|
    requires b != bytes[i] && Backup.IsBackup(bytes[i := b], info', ss')
    ensures i >= Backup.HEADER_SIZE && |Backup.EncodeSections(ss')| != |Backup.EncodeSections(ss)|
  {
    hide Backup.IsBackup;
    if i < Backup.HEADER_SIZE {
      HeaderDamage(bytes, info, ss, i, b, info', ss');
    } else if |Backup.EncodeSections(ss')| == |Backup.EncodeSections(ss)| {
      SectionDamage(bytes, info, ss, i, b, info', ss');
    }
  }

  lemma HeaderDamage(bytes: seq<Byte>, info: Backup.Info, ss: seq<Backup.Section>, i: nat, b: Byte,
                     info': Backup.Info, ss': seq<Backup.Section>)
    requires i < Backup.HEADER_SIZE <= |bytes|
    requires Backup.IsBackup(bytes, info, ss) && Backup.IsBackup(bytes[i := b], info', ss')
    ensures b == bytes[i]
  {
    hide Crc32, FromLe, Backup.HasAt, Backup.EncodeSections, Backup.EncodeTrailer, Backup.AllSectionsFit, Pow256;
    if b != bytes[i] {
      var bad := bytes[i := b];
      PartOfChanged(bytes, i, b, 0, 60);
      PartOfChanged(bytes, i, b, 60, 64);
      assert bad[..60] == bad[0..60] && bytes[..60] == bytes[0..60];
      if i < 60 {
        ChecksumDiffers(bytes[..60], bad[..60], i);
      } else {
        NumberDiffers(bytes[60..64], bad[60..64]);
      }
    }
  }

  lemma SectionDamage(bytes: seq<Byte>, info: Backup.Info, ss: seq<Backup.Section>, i: nat, b: Byte,
                      info': Backup.Info, ss': seq<Backup.Section>)
    requires Backup.HEADER_SIZE <= i < Backup.HEADER_SIZE + |Backup.EncodeSections(ss)| <= |bytes|
    requires Backup.IsBackup(bytes, info, ss) && Backup.IsBackup(bytes[i := b], info', ss')
    requires |Backup.EncodeSections(ss')| == |Backup.EncodeSections(ss)|
    ensures b == bytes[i]
  {
    hide Crc32, FromLe, Backup.EncodeSections, Backup.EncodeTrailer, Backup.AllSectionsFit, Backup.HeaderOk, Pow256;
    if b != bytes[i] {
      var bad, p, q := bytes[i := b], Backup.EncodeSections(ss), Backup.EncodeSections(ss');
      var at := Backup.HEADER_SIZE + |p|;
      Backup.TrailerPieces(bytes, at, p, Backup.CountEntries(ss));
      Backup.TrailerPieces(bad, at, q, Backup.CountEntries(ss'));
      PartOfChanged(bytes, i, b, at + 8, at + 12);
      PartOfChanged(bytes, i, b, Backup.HEADER_SIZE, at);
      ChecksumDiffers(p, q, i - Backup.HEADER_SIZE);
    }
  }
}
