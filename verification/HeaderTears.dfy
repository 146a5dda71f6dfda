/** Crashes while header records are written: two in a row can lose the file, the first one of a new file cannot. */
module HeaderTears {
  import opened Bytes
  import opened Encoding
  import opened Checksum
  import opened FileStore

  // ---------------------------------------------------------------- two crashes in a row

  lemma {:induction false} FirstDifference(a: seq<Byte>, b: seq<Byte>) returns (k: nat)
    requires |a| == |b| && a != b
    ensures k < |a| && a[..k] == b[..k] && a[k] != b[k]
    decreases |a|
  {
    var n := |a| - 1;
    if a[..n] == b[..n] {
      assert a == a[..n] + [a[n]] && b == b[..n] + [b[n]];
      k := n;
    } else {
      k := FirstDifference(a[..n], b[..n]);
      assert a[..n][..k] == a[..k] && b[..n][..k] == b[..k];
    }
  }

  /** Over any valid record, a record of another version can be torn so that it does not decode. */
  lemma TearExists(old_: seq<Byte>, h: Header) returns (n: nat)
    requires |old_| == RECORD_SIZE && Encodable(h)
    requires Deserialize(old_).Some? && Deserialize(old_).value.version != h.version
    ensures n < RECORD_SIZE && Deserialize(Torn(old_, Serialize(h), n)) == None
  {
    hide Crc32, FromLe, ToLe;
    HeaderRoundTrip(h);
    var new_ := Serialize(h);
    assert old_[..24][4..12] == old_[4..12] && new_[..24][4..12] == new_[4..12];
    var k := FirstDifference(old_[..24], new_[..24]);
    assert old_[..24][..k] == old_[..k] && new_[..24][..k] == new_[..k];
    OneByteTorn(old_, new_, k);
    n := k + 1;
  }

  /** A crash inside the primary record leaves the new header in the shadow slot, and its chain intact. */
  lemma AfterPrimaryTorn(f: File, h: Header, b: Block, version: nat, n: nat)
    requires Settled(f, h) && Follows(b, h) && version > h.version && Encodable(NewHeader(f, b, version))
    requires n <= RECORD_SIZE && Deserialize(Torn(f.primary, Serialize(NewHeader(f, b, version)), n)) == None
    ensures var g, next := FileAt(f, b, version, PrimaryTorn(n)), NewHeader(f, b, version);
            && g.shadow == Serialize(next) && Deserialize(g.shadow) == Some(next) && Deserialize(g.primary) == None
            && OpenHeader(g) == Some(next) && Intact(g, next.lastOffset, next.lastLength)
  {
    hide Serialize, Deserialize;
    HeaderRoundTrip(NewHeader(f, b, version));
    NewChain(f, FileAt(f, b, version, PrimaryTorn(n)), h, b);
  }

  /**
   * Two crashes in a row lose the file, from every settled file and for any two appends: a first one
   * inside the primary record, after which the file still opens by its shadow record, and a second
   * one inside the next shadow record. The one-byte law of the checksum gives the cuts.
   */
  lemma DoubleCrash(f: File, h: Header, b: Block, version: nat, c: Block, later: nat) returns (n: nat, m: nat)
    requires Settled(f, h) && Follows(b, h) && version > h.version && Encodable(NewHeader(f, b, version))
    requires Follows(c, NewHeader(f, b, version)) && later > version
    requires later < Pow256(8) && f.len + b.length < Pow256(8) && c.length < Pow256(4)
    ensures n <= RECORD_SIZE && m <= RECORD_SIZE
    ensures var g := FileAt(f, b, version, PrimaryTorn(n));
            && OpenHeader(g) == Some(NewHeader(f, b, version))
            && Intact(g, f.len, b.length)
            && OpenHeader(FileAt(g, c, later, ShadowTorn(m))) == None
  {
    hide Serialize, Deserialize, Intact;
    n := TearExists(f.primary, NewHeader(f, b, version));
    AfterPrimaryTorn(f, h, b, version, n);
    var g := FileAt(f, b, version, PrimaryTorn(n));
    m := TearExists(g.shadow, NewHeader(g, c, later));
    TornTwice(g, c, later, m);
  }

  /**
   * A first crash between the two records leaves the primary stale. The file opens by its shadow
   * record, but a second crash inside the next shadow record takes it back to the older header:
   * neither the header before that append nor the new one.
   */
  lemma StaleFallback(f: File, h: Header, b: Block, version: nat, c: Block, later: nat) returns (m: nat)
    requires Settled(f, h) && Follows(b, h) && version > h.version && Encodable(NewHeader(f, b, version))
    requires Follows(c, NewHeader(f, b, version)) && later > version
    requires later < Pow256(8) && f.len + b.length < Pow256(8) && c.length < Pow256(4)
    ensures m <= RECORD_SIZE
    ensures var g := FileAt(f, b, version, ShadowDone);
            && OpenHeader(g) == Some(NewHeader(f, b, version))
            && OpenHeader(FileAt(g, c, later, ShadowTorn(m))) == Some(h)
            && h != NewHeader(f, b, version) && h != NewHeader(g, c, later)
  {
    hide Serialize, Deserialize, Intact;
    HeaderRoundTrip(NewHeader(f, b, version));
    var g := FileAt(f, b, version, ShadowDone);
    m := TearExists(g.shadow, NewHeader(g, c, later));
  }

  // ---------------------------------------------------------------- a new file

  const NO_HEADER := Header(0, 0, 0)

  /** A file as it is created: an empty header in the primary slot, zeros in the shadow slot. */
  function NewFile(): (f: File)
    ensures Settled(f, NO_HEADER)
  {
    NewFileSettled();
    File(Serialize(NO_HEADER), Zeros(RECORD_SIZE), map[], HEADER_SIZE)
  }

  lemma NewFileSettled()
    ensures Settled(File(Serialize(NO_HEADER), Zeros(RECORD_SIZE), map[], HEADER_SIZE), NO_HEADER)
  {
    hide Crc32, FromLe, ToLe, Pow256, Serialize;
    Powers();
    HeaderRoundTrip(NO_HEADER);
    assert Zeros(RECORD_SIZE)[..4][0] == 0;
  }

  /** The double crash on a new file, byte by byte: both records are torn behind their fifth byte. */
  lemma NewFileLost(b: Block, c: Block)
    requires Follows(b, NO_HEADER) && Follows(c, NewHeader(NewFile(), b, 1))
    requires b.length < Pow256(4) && c.length < Pow256(4)
    ensures var f := NewFile();
            var g := FileAt(f, b, 1, PrimaryTorn(5));
            && OpenHeader(f) == Some(NO_HEADER) && OpenHeader(g) == Some(NewHeader(f, b, 1))
            && OpenHeader(FileAt(g, c, 2, ShadowTorn(5))) == None
  {
    hide Serialize, Deserialize, Intact, Pow256;
    Powers();
    var f := NewFile();
    VersionByte(NO_HEADER);
    VersionByte(NewHeader(f, b, 1));
    HeaderRoundTrip(NO_HEADER);
    OneByteTorn(f.primary, Serialize(NewHeader(f, b, 1)), 4);
    AfterPrimaryTorn(f, NO_HEADER, b, 1, 5);
    var g := FileAt(f, b, 1, PrimaryTorn(5));
    VersionByte(NewHeader(g, c, 2));
    OneByteTorn(g.shadow, Serialize(NewHeader(g, c, 2)), 4);
    TornTwice(g, c, 2, 5);
  }

  lemma VersionByte(h: Header)
    requires h.version < 256
    ensures Serialize(h)[..4] == MAGIC && Serialize(h)[4] == h.version
  {
    hide Crc32;
    assert ToLe(h.version, 8)[0] == h.version % 256;
  }

  // ---------------------------------------------------------------- the first checkpoint of a new file

  /** Bodies of torn records: the new header's first version, offset and length bytes, zeros after them. */
  const EMPTY_BODY := MAGIC + Zeros(20)
  const VERSION_BODY := MAGIC + [1] + Zeros(19)
  const OFFSET_BODY := MAGIC + [1] + Zeros(8) + [0x10] + Zeros(10)
  const LENGTH_BODY := MAGIC + [1] + Zeros(8) + [0x10] + Zeros(6) + [100] + Zeros(3)

  lemma NoZeros(c: bv32)
    ensures Advance(c, 0) == c
  {
  }

  lemma OneZero(c: bv32, d: bv32, n: nat)
    requires CrcBits(c) == d
    ensures Advance(c, n + 1) == Advance(d, n)
  {
    hide CrcBits;
  }

  lemma FourZeros(c: bv32, d: bv32, e: bv32, f: bv32, g: bv32, n: nat)
    requires CrcBits(c) == d && CrcBits(d) == e && CrcBits(e) == f && CrcBits(f) == g
    ensures Advance(c, n + 4) == Advance(g, n)
  {
    hide CrcBits, Advance;
    OneZero(c, d, n + 3);
    OneZero(d, e, n + 2);
    OneZero(e, f, n + 1);
    OneZero(f, g, n);
  }

  lemma OneByte(c: bv32, b: Byte, w: bv32, x: bv32, r: bv32)
    requires Word(b) == w && c ^ w == x && CrcBits(x) == r
    ensures CrcByte(c, b) == r
  {
    hide CrcBits;
  }

  lemma Words()
    ensures Word(0x48) == 0x48 && Word(0x32) == 0x32 && Word(0x52) == 0x52 && Word(0x53) == 0x53
    ensures Word(1) == 1 && Word(0x10) == 0x10 && Word(100) == 100
  {
    assert Word(4) == 4 && Word(3) == 3 && Word(5) == 5 && Word(6) == 6;
    assert Word(0x12) == 0x12 && Word(0x0C) == 0x0C && Word(0x14) == 0x14 && Word(25) == 25;
  }

  lemma MagicBytes()
    ensures CrcByte(0xFFFFFFFF, 0x48) == 0x55FAD9D0 && CrcByte(0x55FAD9D0, 0x32) == 0x4E51798D
    ensures CrcByte(0x4E51798D, 0x52) == 0x16229E3C && CrcByte(0x16229E3C, 0x53) == 0xDD1B5E57
  {
    hide CrcByte, Word;
    Words();
    OneByte(0xFFFFFFFF, 0x48, 0x48, 0xFFFFFFB7, 0x55FAD9D0);
    OneByte(0x55FAD9D0, 0x32, 0x32, 0x55FAD9E2, 0x4E51798D);
    OneByte(0x4E51798D, 0x52, 0x52, 0x4E5179DF, 0x16229E3C);
    OneByte(0x16229E3C, 0x53, 0x53, 0x16229E6F, 0xDD1B5E57);
  }

  lemma MagicRegister()
    ensures CrcUpdate(CRC_START, MAGIC) == 0xDD1B5E57
  {
    hide CrcByte;
    MagicBytes();
    CrcSnoc(CRC_START, [], 0x48);
    CrcSnoc(CRC_START, [0x48], 0x32);
    CrcSnoc(CRC_START, [0x48, 0x32], 0x52);
    CrcSnoc(CRC_START, [0x48, 0x32, 0x52], 0x53);
    assert [] + [0x48] == [0x48] && [0x48] + [0x32] == [0x48, 0x32] && [0x48, 0x32] + [0x52] == [0x48, 0x32, 0x52];
    assert [0x48, 0x32, 0x52] + [0x53] == MAGIC;
  }

  lemma AdvanceEmpty()
    ensures Advance(0xDD1B5E57, 20) == 0xCF1CD711
  {
    hide Advance;
    FourZeros(0xDD1B5E57, 0xF5D2DF09, 0x79296A7B, 0xC7AE81DE, 0x61AC5152, 16);
    FourZeros(0x61AC5152, 0x85049C89, 0x94E13F18, 0x13F87969, 0x347D2185, 12);
    FourZeros(0x347D2185, 0x9DE60A8E, 0x0A9D482D, 0x45D5C13D, 0x582D99D0, 8);
    FourZeros(0x582D99D0, 0x868BFF4D, 0x08EBB6D2, 0x68D5584E, 0x910CB9CF, 4);
    FourZeros(0x910CB9CF, 0x0B4AD398, 0xFEDF51A5, 0xA6428836, 0xCF1CD711, 0);
    NoZeros(0xCF1CD711);
  }

  lemma AdvanceVersion()
    ensures Advance(0x82D5EF9F, 19) == 0xAA7BEC57
  {
    hide Advance;
    FourZeros(0x82D5EF9F, 0x60325B3A, 0xC66CEBE9, 0xD9103637, 0xB864B539, 15);
    FourZeros(0xB864B539, 0x5FBDECBD, 0xB58F72DD, 0xF8D7211B, 0x8A9D1ECD, 11);
    FourZeros(0x8A9D1ECD, 0xE55F2313, 0x845B1EFD, 0xC388D5BF, 0x5B1D26C8, 7);
    FourZeros(0x5B1D26C8, 0x95E457A4, 0xD12E83A6, 0x3F64285E, 0x8CEC18DB, 3);
    OneZero(0x8CEC18DB, 0x118DE744, 2);
    OneZero(0x118DE744, 0x71A0086E, 1);
    OneZero(0x71A0086E, 0xAA7BEC57, 0);
    NoZeros(0xAA7BEC57);
  }

  lemma AdvanceToOffset()
    ensures Advance(0x82D5EF9F, 8) == 0x8A9D1ECD
  {
    hide Advance;
    FourZeros(0x82D5EF9F, 0x60325B3A, 0xC66CEBE9, 0xD9103637, 0xB864B539, 4);
    FourZeros(0xB864B539, 0x5FBDECBD, 0xB58F72DD, 0xF8D7211B, 0x8A9D1ECD, 0);
    NoZeros(0x8A9D1ECD);
  }

  lemma AdvanceOffset()
    ensures Advance(0xF8E83377, 10) == 0x048D289C
  {
    hide Advance;
    FourZeros(0xF8E83377, 0xCE990CAC, 0xDFAE76CF, 0x0B047157, 0xF504C026, 6);
    FourZeros(0xF504C026, 0xD2F8813D, 0x58BAB490, 0xF05729F0, 0xBD4DA535, 2);
    OneZero(0xBD4DA535, 0x560E8986, 1);
    OneZero(0x560E8986, 0x048D289C, 0);
    NoZeros(0x048D289C);
  }

  lemma AdvanceToLength()
    ensures Advance(0xF8E83377, 6) == 0x58BAB490
  {
    hide Advance;
    FourZeros(0xF8E83377, 0xCE990CAC, 0xDFAE76CF, 0x0B047157, 0xF504C026, 2);
    OneZero(0xF504C026, 0xD2F8813D, 1);
    OneZero(0xD2F8813D, 0x58BAB490, 0);
    NoZeros(0x58BAB490);
  }

  lemma AdvanceLength()
    ensures Advance(0xBA888CB1, 3) == 0xB0C948C8
  {
    hide Advance;
    OneZero(0xBA888CB1, 0xBCDC0B96, 2);
    OneZero(0xBCDC0B96, 0x19D0EA7A, 1);
    OneZero(0x19D0EA7A, 0xB0C948C8, 0);
    NoZeros(0xB0C948C8);
  }

  lemma FieldBytes()
    ensures CrcByte(0xDD1B5E57, 1) == 0x82D5EF9F && CrcByte(0x8A9D1ECD, 0x10) == 0xF8E83377 && CrcByte(0x58BAB490, 100) == 0xBA888CB1
  {
    hide CrcByte, Word;
    Words();
    OneByte(0xDD1B5E57, 0x01, 0x01, 0xDD1B5E56, 0x82D5EF9F);
    OneByte(0x8A9D1ECD, 0x10, 0x10, 0x8A9D1EDD, 0xF8E83377);
    OneByte(0x58BAB490, 0x64, 0x64, 0x58BAB4F4, 0xBA888CB1);
  }

  lemma Registers()
    ensures CrcUpdate(CRC_START, EMPTY_BODY) == 0xCF1CD711 && CrcUpdate(CRC_START, VERSION_BODY) == 0xAA7BEC57
    ensures CrcUpdate(CRC_START, OFFSET_BODY) == 0x048D289C && CrcUpdate(CRC_START, LENGTH_BODY) == 0xB0C948C8
  {
    hide CrcUpdate, CrcByte, Advance;
    MagicRegister();
    FieldBytes();
    var v := MAGIC + [1];
    CrcSnoc(CRC_START, MAGIC, 1);
    Fed(MAGIC, 20);
    Fed(v, 19);
    Fed(v, 8);
    var o := v + Zeros(8) + [0x10];
    CrcSnoc(CRC_START, v + Zeros(8), 0x10);
    Fed(o, 10);
    Fed(o, 6);
    CrcSnoc(CRC_START, o + Zeros(6), 100);
    Fed(o + Zeros(6) + [100], 3);
    AdvanceEmpty();
    AdvanceVersion();
    AdvanceToOffset();
    AdvanceOffset();
    AdvanceToLength();
    AdvanceLength();
  }

  lemma Fed(bs: seq<Byte>, n: nat)
    ensures CrcUpdate(CRC_START, bs + Zeros(n)) == Advance(CrcUpdate(CRC_START, bs), n)
  {
    CrcStreams(CRC_START, bs, Zeros(n));
    FeedZeros(CrcUpdate(CRC_START, bs), n);
  }

  const FIRST_HEADER := Header(1, HEADER_SIZE, 100)

  lemma Fields()
    ensures ToLe(0, 8) == Zeros(8) && ToLe(0, 4) == Zeros(4)
    ensures ToLe(1, 8) == [1] + Zeros(7) && ToLe(HEADER_SIZE, 8) == [0, 0x10] + Zeros(6) && ToLe(100, 4) == [100] + Zeros(3)
  {
    ZeroField(3);
    ZeroField(4);
    ZeroField(6);
    ZeroField(7);
    ZeroField(8);
    assert ToLe(HEADER_SIZE, 8) == [0] + ToLe(0x10, 7) && ToLe(0x10, 7) == [0x10] + ToLe(0, 6);
  }

  lemma {:induction false} ZeroField(n: nat)
    ensures ToLe(0, n) == Zeros(n)
  {
    if n > 0 {
      ZeroField(n - 1);
    }
  }

  lemma FirstRecords()
    ensures Serialize(NO_HEADER)[..24] == EMPTY_BODY && Serialize(NO_HEADER)[24..] == ToLe(Crc32(EMPTY_BODY), 4)
    ensures Serialize(FIRST_HEADER)[..24] == LENGTH_BODY
  {
    hide Crc32, ToLe;
    Fields();
    var empty := MAGIC + ToLe(0, 8) + ToLe(0, 8) + ToLe(0, 4);
    assert empty == EMPTY_BODY;
    var first := MAGIC + ToLe(1, 8) + ToLe(HEADER_SIZE, 8) + ToLe(100, 4);
    assert first == LENGTH_BODY;
    assert Serialize(NO_HEADER) == empty + ToLe(Crc32(empty), 4);
    assert Serialize(FIRST_HEADER) == first + ToLe(Crc32(first), 4);
  }

  /** The bodies that a tear over zeros can leave. */
  ghost predicate TornBody(body: seq<Byte>) {
    body == EMPTY_BODY || body == VERSION_BODY || body == OFFSET_BODY || body == LENGTH_BODY
  }

  lemma CutBody(n: nat)
    requires 4 <= n <= 24
    ensures TornBody(LENGTH_BODY[..n] + Zeros(24 - n)) && (n > 4 ==> LENGTH_BODY[..n] + Zeros(24 - n) != EMPTY_BODY)
  {
    var body := LENGTH_BODY[..n] + Zeros(24 - n);
    if n == 4 {
      assert body == EMPTY_BODY;
    } else {
      assert body[4] == 1;
      if n <= 13 {
        assert body == VERSION_BODY;
      } else if n <= 20 {
        assert body == OFFSET_BODY;
      } else {
        assert body == LENGTH_BODY;
      }
    }
  }

  /** None of these bodies has the checksum 0, and none but the empty header's has its checksum. */
  lemma BodiesTold(body: seq<Byte>)
    requires TornBody(body)
    ensures Crc32(body) != 0
    ensures body != EMPTY_BODY ==> Crc32(body) != Crc32(EMPTY_BODY)
  {
    hide CrcUpdate, CrcFinish;
    Registers();
    var r, e := CrcUpdate(CRC_START, body), CrcUpdate(CRC_START, EMPTY_BODY);
    NoChecksum();
    if CrcFinish(r) == CrcFinish(0xFFFFFFFF) {
      FinishInjective(r, 0xFFFFFFFF);
    }
    if body != EMPTY_BODY && CrcFinish(r) == CrcFinish(e) {
      FinishInjective(r, e);
    }
  }

  lemma NoChecksum()
    ensures CrcFinish(0xFFFFFFFF) == 0
  {
  }

  lemma WrongChecksum(r: seq<Byte>, body: seq<Byte>)
    requires |r| == RECORD_SIZE && r[..24] == body && Crc32(body) != FromLe(r[24..28])
    ensures Deserialize(r) == None
  {
  }

  /** The first header torn over the empty one, or over the zeros of the unused slot, does not decode. */
  lemma FirstTorn(n: nat)
    requires 4 <= n < 24
    ensures n > 4 ==> Deserialize(Torn(Serialize(NO_HEADER), Serialize(FIRST_HEADER), n)) == None
    ensures Deserialize(Torn(Zeros(RECORD_SIZE), Serialize(FIRST_HEADER), n)) == None
  {
    hide Crc32, FromLe, ToLe, Serialize, Deserialize, TornBody;
    FirstRecords();
    CutBody(n);
    var body, first := LENGTH_BODY[..n] + Zeros(24 - n), Serialize(FIRST_HEADER);
    assert first[..n] == first[..24][..n];
    BodiesTold(body);
    Powers();
    LeRoundTrip(Crc32(EMPTY_BODY), 4);
    var old_ := Serialize(NO_HEADER);
    var r := Torn(old_, first, n);
    assert old_[n..24] == old_[..24][n..] && EMPTY_BODY[n..] == Zeros(24 - n);
    assert r[..24] == first[..n] + old_[n..24] && r[24..28] == old_[24..];
    if n > 4 {
      WrongChecksum(r, body);
    }
    FirstTornOverZeros(n, body);
  }

  lemma FirstTornOverZeros(n: nat, body: seq<Byte>)
    requires 4 <= n < 24 && body == LENGTH_BODY[..n] + Zeros(24 - n) && Crc32(body) != 0
    ensures Deserialize(Torn(Zeros(RECORD_SIZE), Serialize(FIRST_HEADER), n)) == None
  {
    hide Crc32, FromLe, ToLe, Serialize, Deserialize;
    FirstRecords();
    var first := Serialize(FIRST_HEADER);
    var z := Torn(Zeros(RECORD_SIZE), first, n);
    assert first[..n] == first[..24][..n];
    assert z[..24] == first[..n] + Zeros(RECORD_SIZE)[n..24] && Zeros(RECORD_SIZE)[n..24] == Zeros(24 - n);
    assert z[24..28] == Zeros(4);
    ZeroNumber();
    WrongChecksum(z, body);
  }

  lemma ZeroNumber()
    ensures FromLe(Zeros(4)) == 0
  {
    Fields();
    Powers();
    LeRoundTrip(0, 4);
  }

  /** So for the first checkpoint of a new file nothing needs to be assumed about tears. */
  lemma FirstTearsDetected()
    ensures TearsDetected(NewFile().primary, Serialize(FIRST_HEADER)) && TearsDetected(NewFile().shadow, Serialize(FIRST_HEADER))
  {
    hide Serialize, Deserialize;
    HeaderRoundTrip(NO_HEADER);
    Powers();
    var f := NewFile();
    forall n | FirstUnsure(f.primary) <= n < 24
      ensures Deserialize(Torn(f.primary, Serialize(FIRST_HEADER), n)) == None
    {
      FirstTorn(n);
    }
    forall n | FirstUnsure(f.shadow) <= n < 24
      ensures Deserialize(Torn(f.shadow, Serialize(FIRST_HEADER), n)) == None
    {
      FirstTorn(n);
    }
  }

  /** A crash anywhere in the first checkpoint of a new file is harmless, without any assumption. */
  lemma FirstCheckpointAtomic(content: nat, p: Progress)
    requires Possible(p, Full(100, content))
    ensures var f, b := NewFile(), Full(100, content);
            var g, found := FileAt(f, b, 1, p), OpenHeader(FileAt(f, b, 1, p));
            && (found == Some(NO_HEADER) || found == Some(FIRST_HEADER))
            && (p.ShadowDone? || p.PrimaryTorn? || p.Done? ==> found == Some(FIRST_HEADER))
            && (p.NotStarted? || p.Appending? || p.Appended? ==> found == Some(NO_HEADER))
            && Intact(g, found.value.lastOffset, found.value.lastLength)
            && Chain(g, found.value.lastOffset, found.value.lastLength) == if found == Some(NO_HEADER) then [] else [b]
  {
    hide Serialize, Deserialize, TearsDetected;
    Powers();
    FirstTearsDetected();
    SwitchIsAtomic(NewFile(), NO_HEADER, Full(100, content), 1, p);
  }
}
