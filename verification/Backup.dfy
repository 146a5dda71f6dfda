/**
 * The binary backup: header, one checksummed section per map, trailer. The writer checksums
 * whole sections, the reader checksums the pieces as it reads them.
 */
module Backup {
  import opened Bytes
  import opened SortedEntries
  import opened Encoding
  import opened Checksum
  import opened Utf8

  const HEADER_SIZE: nat := 64
  const TRAILER_SIZE: nat := 24
  const BACKUP_MAGIC: seq<Byte> := [0x48, 0x32, 0x42, 0x4B]
  const TRAILER_MAGIC: seq<Byte> := [0x48, 0x32, 0x45, 0x46]
  const FORMAT_VERSION: nat := 1

  datatype Section = Section(name: seq<Byte>, entries: seq<Entry>)

  datatype Info = Info(snapshotVersion: nat, timestamp: nat, isReplica: bool)

  // ---------------------------------------------------------------- the format

  function EncodeEntries(es: seq<Entry>): (bs: seq<Byte>) {
    if es == [] then []
    else
      var e := es[|es| - 1];
      EncodeEntries(es[..|es| - 1]) + EncodeEntry(e)
  }

  function EncodeEntry(e: Entry): (bs: seq<Byte>) {
    ToLe(|e.key|, 4) + e.key + ToLe(|e.value|, 4) + e.value
  }

  /** A section without its checksum. */
  function SectionBody(s: Section): (bs: seq<Byte>) {
    ToLe(|s.name|, 4) + s.name + ToLe(|s.entries|, 8) + EncodeEntries(s.entries)
  }

  function EncodeSection(s: Section): (bs: seq<Byte>) {
    SectionBody(s) + ToLe(Crc32(SectionBody(s)), 4)
  }

  function EncodeSections(ss: seq<Section>): (bs: seq<Byte>) {
    if ss == [] then [] else EncodeSections(ss[..|ss| - 1]) + EncodeSection(ss[|ss| - 1])
  }

  function CountEntries(ss: seq<Section>): (n: nat) {
    if ss == [] then 0 else CountEntries(ss[..|ss| - 1]) + |ss[|ss| - 1].entries|
  }

  function HeaderBody(info: Info, maps: nat): (bs: seq<Byte>)
    ensures |bs| == 60
  {
    BACKUP_MAGIC + ToLe(FORMAT_VERSION, 4)
    + (ToLe(info.timestamp, 8) + ToLe(info.snapshotVersion, 8))
    + ToLe(info.snapshotVersion, 8) + ToLe(info.timestamp, 8)
    + [if info.isReplica then 1 else 0, 1] + ToLe(maps, 4) + seq(14, _ => 0)
  }

  function EncodeHeader(info: Info, maps: nat): (bs: seq<Byte>)
    ensures |bs| == HEADER_SIZE
  {
    HeaderBody(info, maps) + ToLe(Crc32(HeaderBody(info, maps)), 4)
  }

  function EncodeTrailer(payload: seq<Byte>, records: nat): (bs: seq<Byte>)
    ensures |bs| == TRAILER_SIZE
  {
    ToLe(|payload|, 8) + ToLe(Crc32(payload), 4) + ToLe(records, 8) + TRAILER_MAGIC
  }

  function EncodeBackup(info: Info, ss: seq<Section>): (bs: seq<Byte>) {
    EncodeHeader(info, |ss|) + EncodeSections(ss) + EncodeTrailer(EncodeSections(ss), CountEntries(ss))
  }

  // ---------------------------------------------------------------- writing

  /** Writes a section with its running checksum. */
  method WriteSection(s: Section) returns (buf: seq<Byte>)
    ensures buf == EncodeSection(s)
  {
    hide Crc32, CrcUpdate, CrcFinish, ToLe;
    buf := ToLe(|s.name|, 4) + s.name + ToLe(|s.entries|, 8);
    var hasher := CrcUpdate(CRC_START, ToLe(|s.name|, 4));
    CrcStreams(CRC_START, ToLe(|s.name|, 4), s.name);
    hasher := CrcUpdate(hasher, s.name);
    CrcStreams(CRC_START, ToLe(|s.name|, 4) + s.name, ToLe(|s.entries|, 8));
    hasher := CrcUpdate(hasher, ToLe(|s.entries|, 8));
    ghost var head := buf;
    assert s.entries[..0] == [];
    for i := 0 to |s.entries|
      invariant buf == head + EncodeEntries(s.entries[..i])
      invariant hasher == CrcUpdate(CRC_START, buf)
    {
      var e := s.entries[i];
      assert s.entries[..i + 1][..i] == s.entries[..i];
      ghost var was := buf;
      hasher := FeedEntry(hasher, e);
      buf := buf + ToLe(|e.key|, 4) + e.key + ToLe(|e.value|, 4) + e.value;
      assert buf == was + EncodeEntry(e);
      CrcStreams(CRC_START, was, EncodeEntry(e));
    }
    assert s.entries[..|s.entries|] == s.entries;
    assert buf == SectionBody(s);
    CrcIs(buf);
    buf := buf + ToLe(CrcFinish(hasher), 4);
  }

  /** Feeds the four pieces of an entry to a running checksum. */
  method FeedEntry(hasher: bv32, e: Entry) returns (r: bv32)
    ensures r == CrcUpdate(hasher, EncodeEntry(e))
  {
    hide CrcUpdate, ToLe;
    r := CrcUpdate(hasher, ToLe(|e.key|, 4));
    CrcStreams(hasher, ToLe(|e.key|, 4), e.key);
    r := CrcUpdate(r, e.key);
    CrcStreams(hasher, ToLe(|e.key|, 4) + e.key, ToLe(|e.value|, 4));
    r := CrcUpdate(r, ToLe(|e.value|, 4));
    CrcStreams(hasher, ToLe(|e.key|, 4) + e.key + ToLe(|e.value|, 4), e.value);
    r := CrcUpdate(r, e.value);
  }

  lemma CrcIs(bs: seq<Byte>)
    ensures Crc32(bs) == CrcFinish(CrcUpdate(CRC_START, bs))
  {
  }

  lemma CrcNothing()
    ensures CrcUpdate(CRC_START, []) == CRC_START
  {
  }

  /** Writes a backup; the sections come in the order of their names. */
  method WriteBackup(info: Info, ss: seq<Section>) returns (bs: seq<Byte>)
    ensures bs == EncodeBackup(info, ss)
  {
    hide Crc32, CrcUpdate, CrcFinish, ToLe, EncodeHeader, EncodeSection;
    bs := EncodeHeader(info, |ss|);
    var hasher, payloadBytes, records: nat, payload: seq<Byte> := CRC_START, 0, 0, [];
    CrcNothing();
    assert ss[..0] == [];
    for i := 0 to |ss|
      invariant payload == EncodeSections(ss[..i]) && payloadBytes == |payload|
      invariant bs == EncodeHeader(info, |ss|) + payload
      invariant hasher == CrcUpdate(CRC_START, payload)
      invariant records == CountEntries(ss[..i])
    {
      assert ss[..i + 1][..i] == ss[..i];
      var buf := WriteSection(ss[i]);
      CrcStreams(CRC_START, payload, buf);
      hasher := CrcUpdate(hasher, buf);
      payloadBytes := payloadBytes + |buf|;
      records := records + |ss[i].entries|;
      payload := payload + buf;
      bs := bs + buf;
    }
    assert ss[..|ss|] == ss;
    CrcIs(payload);
    bs := bs + (ToLe(payloadBytes, 8) + ToLe(CrcFinish(hasher), 4) + ToLe(records, 8) + TRAILER_MAGIC);
  }

  // ---------------------------------------------------------------- what stands where

  ghost predicate HasAt(bytes: seq<Byte>, pos: nat, part: seq<Byte>) {
    pos + |part| <= |bytes| && bytes[pos..pos + |part|] == part
  }

  lemma HasSplit(bytes: seq<Byte>, pos: nat, a: seq<Byte>, b: seq<Byte>)
    requires HasAt(bytes, pos, a + b)
    ensures HasAt(bytes, pos, a) && HasAt(bytes, pos + |a|, b)
  {
    assert bytes[pos..pos + |a|] == bytes[pos..pos + |a + b|][..|a|];
    assert bytes[pos + |a|..pos + |a + b|] == bytes[pos..pos + |a + b|][|a|..];
  }

  lemma HasJoin(bytes: seq<Byte>, pos: nat, a: seq<Byte>, b: seq<Byte>)
    requires HasAt(bytes, pos, a) && HasAt(bytes, pos + |a|, b)
    ensures HasAt(bytes, pos, a + b)
  {
    var n := pos + |a|;
    assert bytes[pos..n + |b|] == bytes[pos..n] + bytes[n..n + |b|];
  }

  function ReadLe(bytes: seq<Byte>, pos: nat, width: nat): (n: Option<nat>) {
    if pos + width <= |bytes| then Some(FromLe(bytes[pos..pos + width])) else None
  }

  function ReadBytes(bytes: seq<Byte>, pos: nat, n: nat): (bs: Option<seq<Byte>>) {
    if pos + n <= |bytes| then Some(bytes[pos..pos + n]) else None
  }

  lemma ReadsNumber(bytes: seq<Byte>, pos: nat, n: nat, width: nat)
    requires HasAt(bytes, pos, ToLe(n, width)) && n < Pow256(width)
    ensures ReadLe(bytes, pos, width) == Some(n)
  {
    LeRoundTrip(n, width);
  }

  /** A number that was read stands there, and fits. */
  lemma NumberStands(bytes: seq<Byte>, pos: nat, width: nat)
    requires ReadLe(bytes, pos, width).Some?
    ensures HasAt(bytes, pos, ToLe(ReadLe(bytes, pos, width).value, width))
    ensures ReadLe(bytes, pos, width).value < Pow256(width) && pos + width <= |bytes|
  {
    hide ToLe, FromLe, Pow256;
    LeInverse(bytes[pos..pos + width]);
    LeBounded(bytes[pos..pos + width]);
  }

  lemma BytesStand(bytes: seq<Byte>, pos: nat, n: nat)
    requires ReadBytes(bytes, pos, n).Some?
    ensures HasAt(bytes, pos, ReadBytes(bytes, pos, n).value) && |ReadBytes(bytes, pos, n).value| == n
  {
  }

  // ---------------------------------------------------------------- reading

  ghost predicate EntryFits(e: Entry) {
    |e.key| < Pow256(4) && |e.value| < Pow256(4)
  }

  ghost predicate SectionFits(s: Section) {
    && |s.name| < Pow256(4) && ValidUtf8(s.name) && |s.entries| < Pow256(8)
    && forall e :: e in s.entries ==> EntryFits(e)
  }

  /** Where the pieces of an entry stand. */
  lemma EntryPieces(bytes: seq<Byte>, pos: nat, e: Entry)
    requires HasAt(bytes, pos, EncodeEntry(e))
    ensures HasAt(bytes, pos, ToLe(|e.key|, 4)) && HasAt(bytes, pos + 4, e.key)
    ensures HasAt(bytes, pos + 4 + |e.key|, ToLe(|e.value|, 4)) && HasAt(bytes, pos + 8 + |e.key|, e.value)
  {
    hide ToLe, HasAt;
    var a, b, c := ToLe(|e.key|, 4), e.key, ToLe(|e.value|, 4);
    HasSplit(bytes, pos, a + b + c, e.value);
    HasSplit(bytes, pos, a + b, c);
    HasSplit(bytes, pos, a, b);
  }

  datatype ReadEntryResult = BadEntry | GotEntry(entry: Entry, pos: nat, payload: bv32, section: bv32)

  /** An entry stands at a position when its four pieces do. */
  lemma EntryStands(bytes: seq<Byte>, pos: nat, e: Entry)
    requires HasAt(bytes, pos, ToLe(|e.key|, 4)) && HasAt(bytes, pos + 4, e.key)
    requires HasAt(bytes, pos + 4 + |e.key|, ToLe(|e.value|, 4)) && HasAt(bytes, pos + 8 + |e.key|, e.value)
    ensures HasAt(bytes, pos, EncodeEntry(e)) && |EncodeEntry(e)| == 8 + |e.key| + |e.value|
  {
    hide ToLe, HasAt;
    var a, b, c := ToLe(|e.key|, 4), e.key, ToLe(|e.value|, 4);
    HasJoin(bytes, pos, a, b);
    HasJoin(bytes, pos, a + b, c);
    HasJoin(bytes, pos, a + b + c, e.value);
  }

  /** What the reader makes of an entry that stands in the bytes. */
  ghost predicate Reads(bytes: seq<Byte>, pos: nat, e: Entry) {
    HasAt(bytes, pos, EncodeEntry(e)) && EntryFits(e)
  }

  /** The entry that stands at a position is the one whose pieces are read there. */
  lemma EntryReads(bytes: seq<Byte>, pos: nat, e: Entry)
    requires Reads(bytes, pos, e)
    ensures ReadLe(bytes, pos, 4) == Some(|e.key|) && ReadBytes(bytes, pos + 4, |e.key|) == Some(e.key)
    ensures ReadLe(bytes, pos + 4 + |e.key|, 4) == Some(|e.value|)
    ensures ReadBytes(bytes, pos + 8 + |e.key|, |e.value|) == Some(e.value)
  {
    hide ToLe, HasAt, FromLe, EncodeEntry, Pow256;
    EntryPieces(bytes, pos, e);
    ReadsNumber(bytes, pos, |e.key|, 4);
    ReadsNumber(bytes, pos + 4 + |e.key|, |e.value|, 4);
    ReadsBytes(bytes, pos + 4, e.key);
    ReadsBytes(bytes, pos + 8 + |e.key|, e.value);
  }

  /** Reads one entry, feeding its pieces to both running checksums. */
  method ReadEntry(bytes: seq<Byte>, pos: nat, payload: bv32, section: bv32, ghost e: Entry) returns (r: ReadEntryResult)
    ensures r.GotEntry? ==>
              && Reads(bytes, pos, r.entry) && r.pos == pos + |EncodeEntry(r.entry)|
              && r.payload == CrcUpdate(payload, EncodeEntry(r.entry)) && r.section == CrcUpdate(section, EncodeEntry(r.entry))
    ensures Reads(bytes, pos, e) ==> r.GotEntry? && r.entry == e
  {
    hide CrcUpdate, HasAt, ReadLe, ReadBytes, EncodeEntry, Pow256, Reads;
    if Reads(bytes, pos, e) {
      EntryReads(bytes, pos, e);
    }
    var kLen := ReadLe(bytes, pos, 4);
    if kLen.None? { return BadEntry; }
    var key := ReadBytes(bytes, pos + 4, kLen.value);
    if key.None? { return BadEntry; }
    var vPos := pos + 4 + kLen.value;
    var vLen := ReadLe(bytes, vPos, 4);
    if vLen.None? { return BadEntry; }
    var value := ReadBytes(bytes, vPos + 4, vLen.value);
    if value.None? { return BadEntry; }
    var entry := Entry(key.value, value.value);
    PiecesStand(bytes, pos, kLen.value, key.value, vLen.value, value.value);
    var p := FeedEntry(payload, entry);
    var s := FeedEntry(section, entry);
    r := GotEntry(entry, vPos + 4 + vLen.value, p, s);
  }

  lemma PiecesStand(bytes: seq<Byte>, pos: nat, kLen: nat, key: Key, vLen: nat, value: Value)
    requires ReadLe(bytes, pos, 4) == Some(kLen) && ReadBytes(bytes, pos + 4, kLen) == Some(key)
    requires ReadLe(bytes, pos + 4 + kLen, 4) == Some(vLen) && ReadBytes(bytes, pos + 4 + kLen + 4, vLen) == Some(value)
    ensures var e := Entry(key, value);
            Reads(bytes, pos, e) && pos + |EncodeEntry(e)| == pos + 4 + kLen + 4 + vLen
  {
    hide HasAt, ReadLe, ReadBytes, EncodeEntry, Pow256;
    NumberStands(bytes, pos, 4);
    BytesStand(bytes, pos + 4, kLen);
    NumberStands(bytes, pos + 4 + kLen, 4);
    BytesStand(bytes, pos + 4 + kLen + 4, vLen);
    EntryStands(bytes, pos, Entry(key, value));
  }

  lemma ReadsBytes(bytes: seq<Byte>, pos: nat, part: seq<Byte>)
    requires HasAt(bytes, pos, part)
    ensures ReadBytes(bytes, pos, |part|) == Some(part)
  {
  }

  /** The encoding of a list of entries starts with that of its first i, then the i-th. */
  lemma {:induction false} EntryWithin(bytes: seq<Byte>, pos: nat, es: seq<Entry>, i: nat)
    requires i < |es| && HasAt(bytes, pos, EncodeEntries(es))
    ensures HasAt(bytes, pos + |EncodeEntries(es[..i])|, EncodeEntry(es[i]))
    decreases es
  {
    hide HasAt, EncodeEntry;
    var front := es[..|es| - 1];
    HasSplit(bytes, pos, EncodeEntries(front), EncodeEntry(es[|es| - 1]));
    if i < |front| {
      EntryWithin(bytes, pos, front, i);
      assert front[..i] == es[..i];
    }
  }

  lemma SectionPieces(bytes: seq<Byte>, pos: nat, s: Section)
    requires HasAt(bytes, pos, EncodeSection(s))
    ensures var n := |s.name|;
            && HasAt(bytes, pos, ToLe(n, 4)) && HasAt(bytes, pos + 4, s.name)
            && HasAt(bytes, pos + 4 + n, ToLe(|s.entries|, 8))
            && HasAt(bytes, pos + 12 + n, EncodeEntries(s.entries))
            && HasAt(bytes, pos + 12 + n + |EncodeEntries(s.entries)|, ToLe(Crc32(SectionBody(s)), 4))
  {
    hide ToLe, HasAt, Crc32, EncodeEntries;
    var a, b, c, d := ToLe(|s.name|, 4), s.name, ToLe(|s.entries|, 8), EncodeEntries(s.entries);
    HasSplit(bytes, pos, SectionBody(s), ToLe(Crc32(SectionBody(s)), 4));
    HasSplit(bytes, pos, a + b + c, d);
    HasSplit(bytes, pos, a + b, c);
    HasSplit(bytes, pos, a, b);
  }

  datatype ReadSectionResult = BadSection | GotSection(section: Section, pos: nat, payload: bv32)

  ghost predicate AllFit(es: seq<Entry>) {
    forall e :: e in es ==> EntryFits(e)
  }

  lemma EntriesAppend(es: seq<Entry>, e: Entry)
    ensures EncodeEntries(es + [e]) == EncodeEntries(es) + EncodeEntry(e)
  {
    hide EncodeEntry;
    assert (es + [e])[..|es|] == es;
  }

  /** Reads a number of entries, one after the other. */
  method ReadEntries(bytes: seq<Byte>, start: nat, count: nat, payload: bv32, section: bv32, ghost es: seq<Entry>)
    returns (ok: bool, entries: seq<Entry>, pos: nat, p: bv32, h: bv32)
    requires start <= |bytes|
    ensures ok ==>
              && |entries| == count && AllFit(entries) && HasAt(bytes, start, EncodeEntries(entries))
              && pos == start + |EncodeEntries(entries)|
              && p == CrcUpdate(payload, EncodeEntries(entries)) && h == CrcUpdate(section, EncodeEntries(entries))
    ensures HasAt(bytes, start, EncodeEntries(es)) && count == |es| && AllFit(es) ==> ok && entries == es
  {
    hide CrcUpdate, EncodeEntry, HasAt, EntryFits, EncodeEntries;
    ghost var good := HasAt(bytes, start, EncodeEntries(es)) && count == |es| && AllFit(es);
    ok, entries, pos, p, h := true, [], start, payload, section;
    NoEntries(bytes, start);
    FeedNothing(payload);
    FeedNothing(section);
    for i := 0 to count
      invariant ok && |entries| == i && AllFit(entries) && HasAt(bytes, start, EncodeEntries(entries))
      invariant pos == start + |EncodeEntries(entries)|
      invariant p == CrcUpdate(payload, EncodeEntries(entries)) && h == CrcUpdate(section, EncodeEntries(entries))
      invariant good ==> entries == es[..i]
    {
      ghost var e := if good then es[i] else Entry([], []);
      if good {
        assert e in es;
        EntryWithin(bytes, start, es, i);
        assert es[..i + 1] == es[..i] + [e];
      }
      var r := ReadEntry(bytes, pos, p, h, e);
      if r.BadEntry? {
        ok := false;
        return;
      }
      EntriesAppend(entries, r.entry);
      HasJoin(bytes, start, EncodeEntries(entries), EncodeEntry(r.entry));
      CrcStreams(payload, EncodeEntries(entries), EncodeEntry(r.entry));
      CrcStreams(section, EncodeEntries(entries), EncodeEntry(r.entry));
      entries, pos, p, h := entries + [r.entry], r.pos, r.payload, r.section;
    }
    assert good ==> es[..count] == es;
  }

  lemma NoEntries(bytes: seq<Byte>, pos: nat)
    ensures EncodeEntries([]) == [] && (pos <= |bytes| ==> HasAt(bytes, pos, []))
  {
  }

  lemma FeedNothing(c: bv32)
    ensures CrcUpdate(c, []) == c
  {
  }

  ghost predicate ReadsSection(bytes: seq<Byte>, pos: nat, s: Section) {
    HasAt(bytes, pos, EncodeSection(s)) && SectionFits(s)
  }

  /** The section that stands at a position is the one whose pieces are read there. */
  lemma SectionReads(bytes: seq<Byte>, pos: nat, s: Section)
    requires ReadsSection(bytes, pos, s)
    ensures var n := |s.name|;
            && ReadLe(bytes, pos, 4) == Some(n) && ReadBytes(bytes, pos + 4, n) == Some(s.name)
            && ReadLe(bytes, pos + 4 + n, 8) == Some(|s.entries|)
            && HasAt(bytes, pos + 12 + n, EncodeEntries(s.entries)) && AllFit(s.entries)
            && ReadLe(bytes, pos + 12 + n + |EncodeEntries(s.entries)|, 4) == Some(Crc32(SectionBody(s)))
  {
    hide ToLe, HasAt, FromLe, EncodeSection, Pow256, EncodeEntries, Crc32, EntryFits, SectionBody;
    SectionPieces(bytes, pos, s);
    ReadsNumber(bytes, pos, |s.name|, 4);
    ReadsBytes(bytes, pos + 4, s.name);
    ReadsNumber(bytes, pos + 4 + |s.name|, |s.entries|, 8);
    CrcBounded(SectionBody(s));
    ReadsNumber(bytes, pos + 12 + |s.name| + |EncodeEntries(s.entries)|, Crc32(SectionBody(s)), 4);
  }

  /** A section stands at a position when its pieces do. */
  lemma SectionStands(bytes: seq<Byte>, pos: nat, s: Section)
    requires HasAt(bytes, pos, ToLe(|s.name|, 4)) && HasAt(bytes, pos + 4, s.name)
    requires HasAt(bytes, pos + 4 + |s.name|, ToLe(|s.entries|, 8))
    requires HasAt(bytes, pos + 12 + |s.name|, EncodeEntries(s.entries))
    requires HasAt(bytes, pos + 12 + |s.name| + |EncodeEntries(s.entries)|, ToLe(Crc32(SectionBody(s)), 4))
    ensures HasAt(bytes, pos, EncodeSection(s))
    ensures |EncodeSection(s)| == 16 + |s.name| + |EncodeEntries(s.entries)|
  {
    hide ToLe, HasAt, EncodeEntries, Crc32;
    var a, b, c, d := ToLe(|s.name|, 4), s.name, ToLe(|s.entries|, 8), EncodeEntries(s.entries);
    HasJoin(bytes, pos, a, b);
    HasJoin(bytes, pos, a + b, c);
    HasJoin(bytes, pos, a + b + c, d);
    HasJoin(bytes, pos, SectionBody(s), ToLe(Crc32(SectionBody(s)), 4));
  }

  /** Reads one map, checking its own checksum and feeding the payload's. */
  method ReadSection(bytes: seq<Byte>, pos: nat, payload: bv32, ghost s: Section) returns (r: ReadSectionResult)
    ensures r.GotSection? ==>
              && ReadsSection(bytes, pos, r.section) && r.pos == pos + |EncodeSection(r.section)|
              && r.payload == CrcUpdate(payload, EncodeSection(r.section))
    ensures ReadsSection(bytes, pos, s) ==> r.GotSection? && r.section == s
  {
    hide CrcUpdate, CrcFinish, Crc32, ToLe, EncodeEntries, HasAt, EntryFits, ValidUtf8, ReadLe, ReadBytes, Pow256,
         ReadsSection, EncodeSection, SectionBody, AllFit;
    ghost var good := ReadsSection(bytes, pos, s);
    if good {
      SectionReads(bytes, pos, s);
      SectionNamed(bytes, pos, s);
    }
    var nameLen := ReadLe(bytes, pos, 4);
    if nameLen.None? { return BadSection; }
    var name := ReadBytes(bytes, pos + 4, nameLen.value);
    if name.None? || !ValidUtf8(name.value) { return BadSection; }
    var countPos := pos + 4 + nameLen.value;
    var count := ReadLe(bytes, countPos, 8);
    if count.None? { return BadSection; }
    NumberStands(bytes, countPos, 8);

    var p := FeedPieces(payload, ToLe(nameLen.value, 4), name.value, ToLe(count.value, 8));
    var h := FeedPieces(CRC_START, ToLe(nameLen.value, 4), name.value, ToLe(count.value, 8));

    var ok, entries, crcPos, p', h' := ReadEntries(bytes, countPos + 8, count.value, p, h, s.entries);
    if !ok { return BadSection; }
    var found := Section(name.value, entries);
    BytesStand(bytes, pos + 4, nameLen.value);
    BodyFed(found, payload);
    BodyFed(found, CRC_START);
    CrcIs(SectionBody(found));
    var stored := ReadLe(bytes, crcPos, 4);
    if stored.None? { return BadSection; }
    if stored.value != CrcFinish(h') { return BadSection; }
    SectionFound(bytes, pos, found);
    CrcStreams(payload, SectionBody(found), ToLe(stored.value, 4));
    SectionIs(found);
    r := GotSection(found, crcPos + 4, CrcUpdate(p', ToLe(stored.value, 4)));
  }

  lemma SectionNamed(bytes: seq<Byte>, pos: nat, s: Section)
    requires ReadsSection(bytes, pos, s)
    ensures ValidUtf8(s.name)
  {
  }

  lemma SectionIs(s: Section)
    ensures EncodeSection(s) == SectionBody(s) + ToLe(Crc32(SectionBody(s)), 4)
  {
  }

  /** Feeding the head of a section and then its entries is feeding its body. */
  lemma BodyFed(s: Section, c: bv32)
    ensures CrcUpdate(CrcUpdate(c, ToLe(|s.name|, 4) + s.name + ToLe(|s.entries|, 8)), EncodeEntries(s.entries))
         == CrcUpdate(c, SectionBody(s))
  {
    hide CrcUpdate, ToLe, EncodeEntries;
    CrcStreams(c, ToLe(|s.name|, 4) + s.name + ToLe(|s.entries|, 8), EncodeEntries(s.entries));
  }

  /** What was read piece by piece, with a matching checksum, is a section. */
  lemma SectionFound(bytes: seq<Byte>, pos: nat, s: Section)
    requires var n := |s.name|;
             && ReadLe(bytes, pos, 4) == Some(n) && ReadBytes(bytes, pos + 4, n) == Some(s.name) && ValidUtf8(s.name)
             && ReadLe(bytes, pos + 4 + n, 8) == Some(|s.entries|)
             && HasAt(bytes, pos + 12 + n, EncodeEntries(s.entries)) && AllFit(s.entries)
             && ReadLe(bytes, pos + 12 + n + |EncodeEntries(s.entries)|, 4) == Some(Crc32(SectionBody(s)))
    ensures ReadsSection(bytes, pos, s) && |EncodeSection(s)| == 16 + |s.name| + |EncodeEntries(s.entries)|
  {
    hide HasAt, ReadLe, ReadBytes, EncodeSection, Pow256, EncodeEntries, Crc32, ValidUtf8, SectionBody;
    var n := |s.name|;
    NumberStands(bytes, pos, 4);
    BytesStand(bytes, pos + 4, n);
    NumberStands(bytes, pos + 4 + n, 8);
    NumberStands(bytes, pos + 12 + n + |EncodeEntries(s.entries)|, 4);
    SectionStands(bytes, pos, s);
  }

  lemma CrcBounded(bs: seq<Byte>)
    ensures Crc32(bs) < Pow256(4)
  {
    Powers();
  }

  method FeedPieces(hasher: bv32, a: seq<Byte>, b: seq<Byte>, c: seq<Byte>) returns (r: bv32)
    ensures r == CrcUpdate(hasher, a + b + c)
  {
    hide CrcUpdate;
    r := CrcUpdate(hasher, a);
    CrcStreams(hasher, a, b);
    r := CrcUpdate(r, b);
    CrcStreams(hasher, a + b, c);
    r := CrcUpdate(r, c);
  }

  // ---------------------------------------------------------------- whole backups

  type Maps = map<seq<Byte>, seq<Entry>>

  datatype ReadResult = Rejected | Accepted(info: Info, maps: Maps)

  /** The maps as sections, in a given order of their names. */
  function SectionsOf(maps: Maps, names: seq<seq<Byte>>): (ss: seq<Section>)
    requires forall n :: n in names ==> n in maps
    ensures |ss| == |names|
    ensures forall i :: 0 <= i < |ss| ==> ss[i] == Section(names[i], maps[names[i]])
  {
    seq(|names|, i requires 0 <= i < |names| => assert names[i] in names; Section(names[i], maps[names[i]]))
  }

  function SectionsMap(ss: seq<Section>): (m: Maps) {
    if ss == [] then map[] else SectionsMap(ss[..|ss| - 1])[ss[|ss| - 1].name := ss[|ss| - 1].entries]
  }

  /** Every order of the names lists the same maps. */
  lemma {:induction false} SectionsListMaps(maps: Maps, names: seq<seq<Byte>>)
    requires forall n :: n in names ==> n in maps
    ensures SectionsMap(SectionsOf(maps, names)) == map n | n in maps && n in names :: maps[n]
  {
    if names != [] {
      var front, last := names[..|names| - 1], names[|names| - 1];
      assert forall n :: n in names <==> n in front || n == last;
      SectionsListMaps(maps, front);
      assert SectionsOf(maps, names)[..|names| - 1] == SectionsOf(maps, front);
    }
  }

  ghost predicate BackupFits(info: Info, ss: seq<Section>) {
    && info.snapshotVersion < Pow256(8) && info.timestamp < Pow256(8) && |ss| < Pow256(4)
    && |EncodeSections(ss)| < Pow256(8) && CountEntries(ss) < Pow256(8)
    && forall s :: s in ss ==> SectionFits(s)
  }

  lemma HeaderPieces(bytes: seq<Byte>, info: Info, maps: nat)
    requires HasAt(bytes, 0, EncodeHeader(info, maps))
    requires info.snapshotVersion < Pow256(8) && info.timestamp < Pow256(8) && maps < Pow256(4)
    ensures |bytes| >= HEADER_SIZE && bytes[..4] == BACKUP_MAGIC && bytes[..60] == HeaderBody(info, maps)
    ensures ReadLe(bytes, 4, 4) == Some(FORMAT_VERSION)
    ensures ReadLe(bytes, 24, 8) == Some(info.snapshotVersion)
    ensures ReadLe(bytes, 32, 8) == Some(info.timestamp)
    ensures bytes[40] == (if info.isReplica then 1 else 0)
    ensures ReadLe(bytes, 42, 4) == Some(maps)
    ensures ReadLe(bytes, 60, 4) == Some(Crc32(HeaderBody(info, maps)))
  {
    hide ToLe, Crc32, FromLe, Pow256, HasAt;
    var body := HeaderBody(info, maps);
    HasSplit(bytes, 0, body, ToLe(Crc32(body), 4));
    FromStart(bytes, body);
    HeaderFields(bytes, info, maps);
    FromStart(bytes, BACKUP_MAGIC);
    FormatFits();
    ReadsNumber(bytes, 4, FORMAT_VERSION, 4);
    ReadsNumber(bytes, 24, info.snapshotVersion, 8);
    ReadsNumber(bytes, 32, info.timestamp, 8);
    ReadsNumber(bytes, 42, maps, 4);
    CrcBounded(body);
    ReadsNumber(bytes, 60, Crc32(body), 4);
    StandsAt(bytes, 40, [if info.isReplica then 1 else 0, 1]);
    EndsWithin(bytes, 60, ToLe(Crc32(body), 4));
  }

  /** Where the fields of a header stand. */
  lemma HeaderFields(bytes: seq<Byte>, info: Info, maps: nat)
    requires HasAt(bytes, 0, HeaderBody(info, maps))
    ensures HasAt(bytes, 0, BACKUP_MAGIC) && HasAt(bytes, 4, ToLe(FORMAT_VERSION, 4))
    ensures HasAt(bytes, 24, ToLe(info.snapshotVersion, 8)) && HasAt(bytes, 32, ToLe(info.timestamp, 8))
    ensures HasAt(bytes, 40, [if info.isReplica then 1 else 0, 1]) && HasAt(bytes, 42, ToLe(maps, 4))
  {
    hide ToLe, HasAt;
    var a, b, c := BACKUP_MAGIC, ToLe(FORMAT_VERSION, 4), ToLe(info.timestamp, 8) + ToLe(info.snapshotVersion, 8);
    var d, e := ToLe(info.snapshotVersion, 8), ToLe(info.timestamp, 8);
    var f: seq<Byte>, g := [if info.isReplica then 1 else 0, 1], ToLe(maps, 4);
    HasSplit(bytes, 0, a + b + c + d + e + f + g, seq(14, _ => 0));
    HasSplit(bytes, 0, a + b + c + d + e + f, g);
    HasSplit(bytes, 0, a + b + c + d + e, f);
    HasSplit(bytes, 0, a + b + c + d, e);
    HasSplit(bytes, 0, a + b + c, d);
    HasSplit(bytes, 0, a + b, c);
    HasSplit(bytes, 0, a, b);
  }

  lemma FromStart(bytes: seq<Byte>, part: seq<Byte>)
    requires HasAt(bytes, 0, part)
    ensures |part| <= |bytes| && bytes[..|part|] == part
  {
  }

  lemma StandsAt(bytes: seq<Byte>, pos: nat, part: seq<Byte>)
    requires HasAt(bytes, pos, part) && part != []
    ensures pos < |bytes| && bytes[pos] == part[0]
  {
    assert bytes[pos..pos + |part|][0] == part[0];
  }

  lemma EndsWithin(bytes: seq<Byte>, pos: nat, part: seq<Byte>)
    requires HasAt(bytes, pos, part)
    ensures pos + |part| <= |bytes|
  {
  }

  lemma FormatFits()
    ensures FORMAT_VERSION < Pow256(4)
  {
    Powers();
  }

  lemma TrailerPieces(bytes: seq<Byte>, pos: nat, payload: seq<Byte>, records: nat)
    requires HasAt(bytes, pos, EncodeTrailer(payload, records))
    requires |payload| < Pow256(8) && records < Pow256(8)
    ensures pos + TRAILER_SIZE <= |bytes| && bytes[pos + 20..pos + 24] == TRAILER_MAGIC
    ensures ReadLe(bytes, pos, 8) == Some(|payload|)
    ensures ReadLe(bytes, pos + 8, 4) == Some(Crc32(payload))
    ensures ReadLe(bytes, pos + 12, 8) == Some(records)
  {
    hide ToLe, Crc32, FromLe, Pow256, HasAt;
    var a, b, c := ToLe(|payload|, 8), ToLe(Crc32(payload), 4), ToLe(records, 8);
    HasSplit(bytes, pos, a + b + c, TRAILER_MAGIC);
    HasSplit(bytes, pos, a + b, c);
    HasSplit(bytes, pos, a, b);
    ReadsNumber(bytes, pos, |payload|, 8);
    CrcBounded(payload);
    ReadsNumber(bytes, pos + 8, Crc32(payload), 4);
    ReadsNumber(bytes, pos + 12, records, 8);
    MagicAt(bytes, pos + 20);
  }

  lemma MagicAt(bytes: seq<Byte>, pos: nat)
    requires HasAt(bytes, pos, TRAILER_MAGIC)
    ensures pos + 4 <= |bytes| && bytes[pos..pos + 4] == TRAILER_MAGIC
  {
  }

  lemma {:induction false} SectionWithin(bytes: seq<Byte>, pos: nat, ss: seq<Section>, i: nat)
    requires i < |ss| && HasAt(bytes, pos, EncodeSections(ss))
    ensures HasAt(bytes, pos + |EncodeSections(ss[..i])|, EncodeSection(ss[i]))
    decreases ss
  {
    hide HasAt, EncodeSection;
    var front := ss[..|ss| - 1];
    HasSplit(bytes, pos, EncodeSections(front), EncodeSection(ss[|ss| - 1]));
    if i < |front| {
      SectionWithin(bytes, pos, front, i);
      assert front[..i] == ss[..i];
    }
  }

  ghost predicate AllSectionsFit(ss: seq<Section>) {
    forall s :: s in ss ==> SectionFits(s)
  }

  lemma SectionsAppend(ss: seq<Section>, s: Section)
    ensures EncodeSections(ss + [s]) == EncodeSections(ss) + EncodeSection(s)
    ensures CountEntries(ss + [s]) == CountEntries(ss) + |s.entries|
    ensures SectionsMap(ss + [s]) == SectionsMap(ss)[s.name := s.entries]
  {
    hide EncodeSection;
    assert (ss + [s])[..|ss|] == ss;
  }

  lemma NoSections(bytes: seq<Byte>, pos: nat)
    ensures EncodeSections([]) == [] && CountEntries([]) == 0 && SectionsMap([]) == map[]
    ensures pos <= |bytes| ==> HasAt(bytes, pos, [])
  {
  }

  /** Reads a number of sections; `read` names them for the proof. */
  method ReadSections(bytes: seq<Byte>, start: nat, count: nat, ghost ss: seq<Section>)
    returns (ok: bool, maps: Maps, pos: nat, records: nat, payload: bv32, ghost read: seq<Section>)
    requires start <= |bytes|
    ensures ok ==>
              && |read| == count && AllSectionsFit(read) && HasAt(bytes, start, EncodeSections(read))
              && maps == SectionsMap(read) && pos == start + |EncodeSections(read)|
              && records == CountEntries(read) && payload == CrcUpdate(CRC_START, EncodeSections(read))
    ensures HasAt(bytes, start, EncodeSections(ss)) && count == |ss| && AllSectionsFit(ss) ==> ok && read == ss
  {
    hide CrcUpdate, EncodeSection, HasAt, SectionFits, EncodeSections, CountEntries, SectionsMap;
    ghost var good := HasAt(bytes, start, EncodeSections(ss)) && count == |ss| && AllSectionsFit(ss);
    ok, maps, pos, records, payload, read := true, map[], start, 0, CRC_START, [];
    NoSections(bytes, start);
    CrcNothing();
    for i := 0 to count
      invariant ok && |read| == i && AllSectionsFit(read) && HasAt(bytes, start, EncodeSections(read))
      invariant maps == SectionsMap(read) && pos == start + |EncodeSections(read)|
      invariant records == CountEntries(read) && payload == CrcUpdate(CRC_START, EncodeSections(read))
      invariant good ==> read == ss[..i]
    {
      ghost var s := if good then ss[i] else Section([], []);
      if good {
        assert s in ss;
        SectionWithin(bytes, start, ss, i);
        assert ss[..i + 1] == ss[..i] + [s];
      }
      var r := ReadSection(bytes, pos, payload, s);
      if r.BadSection? {
        ok := false;
        return;
      }
      SectionsAppend(read, r.section);
      HasJoin(bytes, start, EncodeSections(read), EncodeSection(r.section));
      CrcStreams(CRC_START, EncodeSections(read), EncodeSection(r.section));
      maps := maps[r.section.name := r.section.entries];
      pos, records, payload := r.pos, records + |r.section.entries|, r.payload;
      read := read + [r.section];
    }
    assert good ==> ss[..count] == ss;
  }

  ghost predicate HeaderOk(bytes: seq<Byte>, info: Info, maps: nat) {
    && |bytes| >= HEADER_SIZE && bytes[..4] == BACKUP_MAGIC && FromLe(bytes[4..8]) == FORMAT_VERSION
    && FromLe(bytes[60..64]) == Crc32(bytes[..60])
    && info == Info(FromLe(bytes[24..32]), FromLe(bytes[32..40]), bytes[40] != 0)
    && FromLe(bytes[42..46]) == maps
  }

  /**
   * What a backup is: a header whose checksum is right, as many sections as it says, each with its
   * checksum, and a trailer with their total length, checksum and number of entries. The header
   * bytes that carry no information may hold anything.
   */
  ghost predicate IsBackup(bytes: seq<Byte>, info: Info, ss: seq<Section>) {
    var payload := EncodeSections(ss);
    && HeaderOk(bytes, info, |ss|) && AllSectionsFit(ss)
    && HasAt(bytes, HEADER_SIZE, payload)
    && HasAt(bytes, HEADER_SIZE + |payload|, EncodeTrailer(payload, CountEntries(ss)))
    && |payload| < Pow256(8) && CountEntries(ss) < Pow256(8)
  }

  /** A trailer whose fields are right is the trailer that was written. */
  lemma TrailerStands(bytes: seq<Byte>, pos: nat, payload: seq<Byte>, records: nat)
    requires pos + TRAILER_SIZE <= |bytes| && bytes[pos + 20..pos + 24] == TRAILER_MAGIC
    requires FromLe(bytes[pos..pos + 8]) == |payload| && FromLe(bytes[pos + 8..pos + 12]) == Crc32(payload)
    requires FromLe(bytes[pos + 12..pos + 20]) == records
    ensures HasAt(bytes, pos, EncodeTrailer(payload, records)) && |payload| < Pow256(8) && records < Pow256(8)
  {
    hide ToLe, FromLe, Crc32, Pow256;
    var a, b, c, d := bytes[pos..pos + 8], bytes[pos + 8..pos + 12], bytes[pos + 12..pos + 20], bytes[pos + 20..pos + 24];
    LeInverse(a); LeInverse(b); LeInverse(c);
    LeBounded(a); LeBounded(c);
    assert bytes[pos..pos + 24] == a + b + c + d;
  }

  /**
   * Reads and verifies a backup. It accepts exactly the backups, whatever follows them, and gives
   * back their information and maps.
   */
  method ReadBackup(bytes: seq<Byte>, ghost info: Info, ghost ss: seq<Section>)
    returns (r: ReadResult, ghost read: seq<Section>)
    ensures IsBackup(bytes, info, ss) ==> r == Accepted(info, SectionsMap(ss))
    ensures r.Accepted? ==> IsBackup(bytes, r.info, read) && r.maps == SectionsMap(read)
  {
    hide CrcUpdate, CrcFinish, Crc32, FromLe, EncodeSections, EncodeTrailer, Pow256, CountEntries, HasAt, SectionsMap,
         AllSectionsFit;
    ghost var good := IsBackup(bytes, info, ss);
    read := [];
    if |bytes| < 4 || bytes[..4] != BACKUP_MAGIC { return Rejected, read; }
    if |bytes| < HEADER_SIZE { return Rejected, read; }
    if FromLe(bytes[4..8]) != FORMAT_VERSION { return Rejected, read; }
    if FromLe(bytes[60..64]) != Crc32(bytes[..60]) { return Rejected, read; }
    var found := Info(FromLe(bytes[24..32]), FromLe(bytes[32..40]), bytes[40] != 0);
    var totalMaps := FromLe(bytes[42..46]);

    var ok, maps, pos, records, hasher;
    ok, maps, pos, records, hasher, read := ReadSections(bytes, HEADER_SIZE, totalMaps, ss);
    if !ok { return Rejected, read; }
    ghost var payload := EncodeSections(read);
    CrcIs(payload);
    if good {
      TrailerPieces(bytes, pos, payload, CountEntries(ss));
    }
    if pos + TRAILER_SIZE > |bytes| { return Rejected, read; }
    if bytes[pos + 20..pos + 24] != TRAILER_MAGIC { return Rejected, read; }
    if FromLe(bytes[pos..pos + 8]) != pos - HEADER_SIZE { return Rejected, read; }
    if FromLe(bytes[pos + 8..pos + 12]) != CrcFinish(hasher) { return Rejected, read; }
    if FromLe(bytes[pos + 12..pos + 20]) != records { return Rejected, read; }
    TrailerStands(bytes, pos, payload, CountEntries(read));
    r := Accepted(found, maps);
  }

  /** What the writer writes is a backup, with anything behind it. */
  lemma WrittenIsBackup(bytes: seq<Byte>, info: Info, ss: seq<Section>)
    requires EncodeBackup(info, ss) <= bytes && BackupFits(info, ss)
    ensures IsBackup(bytes, info, ss)
  {
    hide Crc32, FromLe, EncodeSections, EncodeHeader, EncodeTrailer, HeaderBody, Pow256, CountEntries, HasAt, SectionFits;
    BackupPieces(bytes, info, ss);
    HeaderPieces(bytes, info, |ss|);
  }

  lemma BackupPieces(bytes: seq<Byte>, info: Info, ss: seq<Section>)
    requires EncodeBackup(info, ss) <= bytes
    ensures HasAt(bytes, 0, EncodeHeader(info, |ss|))
    ensures HasAt(bytes, HEADER_SIZE, EncodeSections(ss))
    ensures HasAt(bytes, HEADER_SIZE + |EncodeSections(ss)|, EncodeTrailer(EncodeSections(ss), CountEntries(ss)))
  {
    hide HasAt, EncodeHeader, EncodeSections, EncodeTrailer, CountEntries;
    var a, b, c := EncodeHeader(info, |ss|), EncodeSections(ss), EncodeTrailer(EncodeSections(ss), CountEntries(ss));
    WholeHas(bytes, a + b + c);
    HasSplit(bytes, 0, a + b, c);
    HasSplit(bytes, 0, a, b);
  }

  lemma WholeHas(bytes: seq<Byte>, part: seq<Byte>)
    requires part <= bytes
    ensures HasAt(bytes, 0, part)
  {
  }

  /** Writing maps in any order of their names and reading them back gives the same maps. */
  method BackupRoundTrip(info: Info, maps: Maps, names: seq<seq<Byte>>, trailing: seq<Byte>) returns (r: ReadResult)
    requires forall n :: n in names <==> n in maps
    requires BackupFits(info, SectionsOf(maps, names))
    ensures r == Accepted(info, maps)
  {
    hide EncodeBackup, BackupFits, IsBackup;
    var ss := SectionsOf(maps, names);
    var bytes := WriteBackup(info, ss);
    WrittenIsBackup(bytes + trailing, info, ss);
    ghost var read;
    r, read := ReadBackup(bytes + trailing, info, ss);
    SectionsListMaps(maps, names);
    assert (map n | n in maps && n in names :: maps[n]) == maps;
  }
}
