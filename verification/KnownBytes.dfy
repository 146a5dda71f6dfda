/**
 * The byte formats in literals: checksums, integers in both byte orders, PackStream markers, Bolt
 * chunks, row tags, log frames, file headers, backup sections and adjacency keys.
 */
module KnownBytes {
  import opened Bytes
  import opened SortedEntries
  import opened ChangeLog
  import opened Encoding
  import opened Utf8
  import Checksum
  import PackStream
  import BoltFraming
  import RowCodec
  import WalFrames
  import FileStore
  import Backup
  import GraphStore

  // ---------------------------------------------------------------- positions of bytes

  /** A number with the given bytes, lowest first, below a higher part. */
  function Number(a: Byte, b: Byte, c: Byte, d: Byte, high: nat): nat {
    a + 0x100 * (b + 0x100 * (c + 0x100 * (d + 0x100 * high)))
  }

  lemma LowFirst(b: Byte, n: nat, width: nat)
    ensures ToLe(b + 256 * n, width + 1) == [b] + ToLe(n, width)
  {
    LowByte(b, n);
  }

  lemma HighFirst(n: nat, b: Byte, width: nat)
    ensures ToBe(256 * n + b, width + 1) == ToBe(n, width) + [b]
  {
    LowByte(b, n);
  }

  /** Where each byte of a two-byte number stands. */
  lemma TwoBytes(hi: Byte, lo: Byte)
    ensures ToLe(lo + 0x100 * hi, 2) == [lo, hi] && ToBe(lo + 0x100 * hi, 2) == [hi, lo]
  {
    hide ToLe, ToBe;
    NoBytes();
    LowFirst(hi, 0, 0);
    LowFirst(lo, hi, 1);
    HighFirst(0, hi, 0);
    HighFirst(hi, lo, 1);
  }

  lemma NoBytes()
    ensures ToLe(0, 0) == [] && ToBe(0, 0) == []
  {
  }

  lemma LowFour(a: Byte, b: Byte, c: Byte, d: Byte, high: nat, width: nat)
    ensures ToLe(Number(a, b, c, d, high), width + 4) == [a, b, c, d] + ToLe(high, width)
  {
    hide ToLe;
    LowFirst(d, high, width);
    LowFirst(c, d + 256 * high, width + 1);
    LowFirst(b, c + 256 * (d + 256 * high), width + 2);
    LowFirst(a, b + 256 * (c + 256 * (d + 256 * high)), width + 3);
  }

  lemma HighFour(a: Byte, b: Byte, c: Byte, d: Byte, high: nat, width: nat)
    ensures ToBe(Number(a, b, c, d, high), width + 4) == ToBe(high, width) + [d, c, b, a]
  {
    hide ToBe;
    HighFirst(high, d, width);
    HighFirst(256 * high + d, c, width + 1);
    HighFirst(256 * (256 * high + d) + c, b, width + 2);
    HighFirst(256 * (256 * (256 * high + d) + c) + b, a, width + 3);
  }

  /** Where each byte of a four-byte number stands. */
  lemma FourBytes(a: Byte, b: Byte, c: Byte, d: Byte)
    ensures ToLe(Number(a, b, c, d, 0), 4) == [a, b, c, d]
    ensures ToBe(Number(a, b, c, d, 0), 4) == [d, c, b, a]
  {
    hide ToLe, ToBe, Number;
    NoBytes();
    LowFour(a, b, c, d, 0, 0);
    HighFour(a, b, c, d, 0, 0);
  }

  /** Where each byte of an eight-byte number stands. */
  lemma EightBytes(a: Byte, b: Byte, c: Byte, d: Byte, e: Byte, f: Byte, g: Byte, h: Byte)
    ensures ToLe(Number(a, b, c, d, Number(e, f, g, h, 0)), 8) == [a, b, c, d, e, f, g, h]
    ensures ToBe(Number(a, b, c, d, Number(e, f, g, h, 0)), 8) == [h, g, f, e, d, c, b, a]
  {
    hide ToLe, ToBe, Number;
    FourBytes(e, f, g, h);
    LowFour(a, b, c, d, Number(e, f, g, h, 0), 4);
    HighFour(a, b, c, d, Number(e, f, g, h, 0), 4);
  }

  /** Small numbers fill the low byte only. */
  lemma Small(b: Byte)
    ensures ToLe(b, 4) == [b, 0, 0, 0] && ToLe(b, 8) == [b, 0, 0, 0, 0, 0, 0, 0]
    ensures ToBe(b, 8) == [0, 0, 0, 0, 0, 0, 0, b]
  {
    hide ToLe, ToBe;
    FourBytes(b, 0, 0, 0);
    EightBytes(b, 0, 0, 0, 0, 0, 0, 0);
  }

  // ---------------------------------------------------------------- checksums

  const DIGITS: seq<Byte> := [0x31, 0x32, 0x33, 0x34, 0x35, 0x36, 0x37, 0x38, 0x39]

  lemma FedByte(c: bv32, bs: seq<Byte>, r: bv32, b: Byte, w: bv32, x: bv32, r': bv32)
    requires Checksum.CrcUpdate(c, bs) == r && Checksum.Word(b) == w && r ^ w == x && Checksum.CrcBits(x) == r'
    ensures Checksum.CrcUpdate(c, bs + [b]) == r'
  {
    hide Checksum.CrcBits, Checksum.Word;
    assert (bs + [b])[..|bs|] == bs;
  }

  lemma DigitWords()
    ensures Checksum.Word(0x31) == 0x31 && Checksum.Word(0x32) == 0x32 && Checksum.Word(0x33) == 0x33
    ensures Checksum.Word(0x34) == 0x34 && Checksum.Word(0x35) == 0x35 && Checksum.Word(0x36) == 0x36
    ensures Checksum.Word(0x37) == 0x37 && Checksum.Word(0x38) == 0x38 && Checksum.Word(0x39) == 0x39
  {
    assert Checksum.Word(3) == 3;
    assert Checksum.Word(6) == 6 && Checksum.Word(7) == 7;
    assert Checksum.Word(12) == 12 && Checksum.Word(13) == 13 && Checksum.Word(14) == 14;
    assert Checksum.Word(24) == 24 && Checksum.Word(25) == 25 && Checksum.Word(26) == 26 && Checksum.Word(27) == 27 && Checksum.Word(28) == 28;
  }

  lemma FirstDigits()
    ensures Checksum.CrcUpdate(0xFFFFFFFF, [0x31, 0x32, 0x33, 0x34]) == 0x641C1F5C
  {
    hide Checksum.CrcBits, Checksum.Word, Checksum.CrcUpdate;
    DigitWords();
    NothingFed(0xFFFFFFFF);
    Steps1();
    var c: bv32 := 0xFFFFFFFF;
    FedByte(c, [], c, 0x31, 0x31, 0xFFFFFFCE, 0x7C231048);
    FedByte(c, [] + [0x31], 0x7C231048, 0x32, 0x32, 0x7C23107A, 0xB0ACBB32);
    FedByte(c, [] + [0x31] + [0x32], 0xB0ACBB32, 0x33, 0x33, 0xB0ACBB01, 0x77B79C2D);
    FedByte(c, [] + [0x31] + [0x32] + [0x33], 0x77B79C2D, 0x34, 0x34, 0x77B79C19, 0x641C1F5C);
    assert [] + [0x31] + [0x32] + [0x33] + [0x34] == [0x31, 0x32, 0x33, 0x34];
  }

  lemma NothingFed(c: bv32)
    ensures Checksum.CrcUpdate(c, []) == c
  {
  }

  lemma Steps1()
    ensures Checksum.CrcBits(0xFFFFFFCE) == 0x7C231048 && Checksum.CrcBits(0x7C23107A) == 0xB0ACBB32
    ensures Checksum.CrcBits(0xB0ACBB01) == 0x77B79C2D && Checksum.CrcBits(0x77B79C19) == 0x641C1F5C
  {
  }

  lemma Steps2()
    ensures Checksum.CrcBits(0x641C1F69) == 0x340AC5E3 && Checksum.CrcBits(0x340AC5D5) == 0xF68D2C9E
    ensures Checksum.CrcBits(0xF68D2CA9) == 0xAFFC9660 && Checksum.CrcBits(0xAFFC9658) == 0x651F2550
    ensures Checksum.CrcBits(0x651F2569) == 0x340BC6D9
  {
  }

  /** The published check value: the CRC-32 of the digits 1 to 9 is CBF43926. */
  lemma CheckValue()
    ensures Checksum.Crc32(DIGITS) == 0xCBF43926
  {
    hide Checksum.CrcBits, Checksum.Word, Checksum.CrcUpdate;
    DigitWords();
    FirstDigits();
    Steps2();
    var c: bv32 := 0xFFFFFFFF;
    FedByte(c, [0x31, 0x32, 0x33, 0x34], 0x641C1F5C, 0x35, 0x35, 0x641C1F69, 0x340AC5E3);
    FedByte(c, [0x31, 0x32, 0x33, 0x34] + [0x35], 0x340AC5E3, 0x36, 0x36, 0x340AC5D5, 0xF68D2C9E);
    FedByte(c, [0x31, 0x32, 0x33, 0x34] + [0x35] + [0x36], 0xF68D2C9E, 0x37, 0x37, 0xF68D2CA9, 0xAFFC9660);
    FedByte(c, [0x31, 0x32, 0x33, 0x34] + [0x35] + [0x36] + [0x37], 0xAFFC9660, 0x38, 0x38, 0xAFFC9658, 0x651F2550);
    FedByte(c, [0x31, 0x32, 0x33, 0x34] + [0x35] + [0x36] + [0x37] + [0x38], 0x651F2550, 0x39, 0x39, 0x651F2569, 0x340BC6D9);
    assert [0x31, 0x32, 0x33, 0x34] + [0x35] + [0x36] + [0x37] + [0x38] + [0x39] == DIGITS;
    Finished();
  }

  lemma Finished()
    ensures Checksum.CrcFinish(0x340BC6D9) == 0xCBF43926
  {
    assert 0x340BC6D9 as bv32 ^ 0xFFFFFFFF == 0xCBF43926;
  }

  // ---------------------------------------------------------------- PackStream and Bolt

  /** Integers of one byte, and of a marker and one byte, at both ends. */
  lemma PackTiny()
    ensures PackStream.IntegerBytes(127) == [0x7F] && PackStream.IntegerBytes(-16) == [0xF0] && PackStream.IntegerBytes(0) == [0x00]
    ensures PackStream.IntegerBytes(-17) == [0xC8, 0xEF] && PackStream.IntegerBytes(-128) == [0xC8, 0x80]
  {
    hide ToBe, Pow256;
    Powers();
  }

  lemma PackTwo()
    ensures PackStream.IntegerBytes(128) == [0xC9, 0x00, 0x80] && PackStream.IntegerBytes(-32768) == [0xC9, 0x80, 0x00]
    ensures PackStream.IntegerBytes(32767) == [0xC9, 0x7F, 0xFF] && PackStream.IntegerBytes(-129) == [0xC9, 0xFF, 0x7F]
  {
    hide ToBe, Pow256;
    Powers();
    TwoBytes(0x00, 0x80);
    TwoBytes(0x80, 0x00);
    TwoBytes(0x7F, 0xFF);
    TwoBytes(0xFF, 0x7F);
  }

  lemma PackFour()
    ensures PackStream.IntegerBytes(32768) == [0xCA, 0x00, 0x00, 0x80, 0x00]
    ensures PackStream.IntegerBytes(-2147483648) == [0xCA, 0x80, 0x00, 0x00, 0x00]
  {
    hide ToBe, Pow256;
    Powers();
    FourBytes(0x00, 0x80, 0x00, 0x00);
    FourBytes(0x00, 0x00, 0x00, 0x80);
  }

  lemma PackEight()
    ensures PackStream.IntegerBytes(2147483648) == [0xCB, 0x00, 0x00, 0x00, 0x00, 0x80, 0x00, 0x00, 0x00]
    ensures PackStream.IntegerBytes(-0x8000_0000_0000_0000) == [0xCB, 0x80, 0x00, 0x00, 0x00, 0x00, 0x00, 0x00, 0x00]
  {
    hide ToBe, Pow256;
    Powers();
    EightBytes(0x00, 0x00, 0x00, 0x80, 0x00, 0x00, 0x00, 0x00);
    EightBytes(0x00, 0x00, 0x00, 0x00, 0x00, 0x00, 0x00, 0x80);
  }

  /** The marker and size before every string, list, map and structure. */
  lemma PackSizes(n: Byte, hi: Byte, third: Byte, fourth: Byte)
    ensures n <= 15 ==> PackStream.SizeHeader(PackStream.KString, n) == [0x80 + n] && PackStream.SizeHeader(PackStream.KList, n) == [0x90 + n]
    ensures n <= 15 ==> PackStream.SizeHeader(PackStream.KMap, n) == [0xA0 + n] && PackStream.SizeHeader(PackStream.KStruct, n) == [0xB0 + n]
    ensures n > 15 ==> PackStream.SizeHeader(PackStream.KString, n) == [0xD0, n] && PackStream.SizeHeader(PackStream.KList, n) == [0xD4, n]
    ensures n > 15 ==> PackStream.SizeHeader(PackStream.KMap, n) == [0xD8, n] && PackStream.SizeHeader(PackStream.KStruct, n) == [0xDC, n]
    ensures hi > 0 ==> var m := n + 0x100 * hi;
            && PackStream.SizeHeader(PackStream.KString, m) == [0xD1, hi, n] && PackStream.SizeHeader(PackStream.KList, m) == [0xD5, hi, n]
            && PackStream.SizeHeader(PackStream.KMap, m) == [0xD9, hi, n] && PackStream.SizeHeader(PackStream.KStruct, m) == [0xDD, hi, n]
    ensures third + fourth > 0 ==> var m := Number(n, hi, third, fourth, 0);
            && PackStream.SizeHeader(PackStream.KString, m) == [0xD2, fourth, third, hi, n]
            && PackStream.SizeHeader(PackStream.KList, m) == [0xD6, fourth, third, hi, n]
            && PackStream.SizeHeader(PackStream.KMap, m) == [0xDA, fourth, third, hi, n]
  {
    hide ToBe;
    TwoBytes(hi, n);
    FourBytes(n, hi, third, fourth);
  }

  /** Values without a size, byte for byte. */
  lemma PackScalars(f: PackStream.Double)
    ensures PackStream.Encode(PackStream.LNull) == [0xC0]
    ensures PackStream.Encode(PackStream.LBoolean(false)) == [0xC2] && PackStream.Encode(PackStream.LBoolean(true)) == [0xC3]
    ensures PackStream.Encode(PackStream.LFloat(f)) == [0xC1] + f
  {
  }

  lemma Letter(b: Byte)
    requires b < 0x80
    ensures ValidUtf8([b])
  {
  }

  /** A structure of a map and a list. */
  lemma PackNested(tag: Byte, name: Byte)
    requires name < 0x80
    ensures ValidUtf8([name])
    ensures var m := PackStream.LMap([PackStream.ListedEntry([name], PackStream.LBoolean(true))]);
            PackStream.Encode(PackStream.LStructure(tag, [m, PackStream.LList([PackStream.LNull])]))
            == [0xB2, tag, 0xA1, 0x81, name, 0xC3, 0x91, 0xC0]
  {
    Letter(name);
    hide ValidUtf8, ToBe;
    var e := PackStream.ListedEntry([name], PackStream.LBoolean(true));
    assert PackStream.StringBytes([name]) == [0x81, name];
    assert PackStream.EncodeEntries([e]) == PackStream.EncodeEntries([]) + PackStream.StringBytes([name]) + [0xC3];
    assert PackStream.Encode(PackStream.LMap([e])) == [0xA1, 0x81, name, 0xC3];
    assert PackStream.EncodeAll([PackStream.LNull]) == PackStream.EncodeAll([]) + [0xC0];
    assert PackStream.Encode(PackStream.LList([PackStream.LNull])) == [0x91, 0xC0];
    Two(PackStream.LMap([e]), PackStream.LList([PackStream.LNull]));
  }

  lemma Two(a: PackStream.Listing, b: PackStream.Listing)
    ensures PackStream.EncodeAll([a, b]) == PackStream.Encode(a) + PackStream.Encode(b)
  {
    hide PackStream.Encode;
    assert [a, b][..1] == [a] && [a][..0] == [];
    assert PackStream.EncodeAll([a]) == PackStream.EncodeAll([]) + PackStream.Encode(a);
    assert PackStream.EncodeAll([a, b]) == PackStream.EncodeAll([a]) + PackStream.Encode(b);
  }

  lemma OneChunk(p: seq<Byte>)
    requires 0 < |p| <= 65535
    ensures BoltFraming.Framed(p) == [|p| / 256, |p| % 256] + p + [0x00, 0x00]
  {
    hide ToBe;
    var k := BoltFraming.ChunkLength(|p|);
    TwoBytes(|p| / 256, |p| % 256);
    assert |p| % 256 + 0x100 * (|p| / 256) == |p|;
    assert k == |p| && p[..k] == p && BoltFraming.Chunks(p[k..]) == [];
    assert BoltFraming.Chunks(p) == ToBe(k, 2) + p[..k] + BoltFraming.Chunks(p[k..]);
  }

  /** A message of up to 65535 bytes is one chunk; a longer one starts with a full chunk. */
  lemma BoltChunks(p: seq<Byte>)
    ensures p == [] ==> BoltFraming.Framed(p) == [0x00, 0x00]
    ensures 0 < |p| <= 65535 ==> BoltFraming.Framed(p) == [|p| / 256, |p| % 256] + p + [0x00, 0x00]
    ensures |p| > 65535 ==> BoltFraming.Framed(p) == [0xFF, 0xFF] + p[..65535] + BoltFraming.Framed(p[65535..])
  {
    hide ToBe;
    if 0 < |p| <= 65535 {
      OneChunk(p);
    }
    TwoBytes(0xFF, 0xFF);
  }

  // ---------------------------------------------------------------- rows

  lemma ArrayIs(v: RowCodec.Value)
    requires v.Array?
    ensures RowCodec.EncodeValue(v) == [0x10] + (ToLe(|v.items|, 4) + RowCodec.EncodeValues(v.items))
  {
    hide RowCodec.EncodeValues, RowCodec.FixedBytes, ToLe;
  }

  lemma RowIs(row: seq<RowCodec.Value>)
    ensures RowCodec.ToBytes(row) == [0xAA] + ToLe(|row|, 4) + RowCodec.EncodeValues(row)
  {
    hide RowCodec.EncodeValues, ToLe;
  }

  lemma CountedIs(v: RowCodec.Value)
    requires v.String? || v.Bytes? || v.Json?
    ensures v.String? ==> RowCodec.EncodeValue(v) == [0x09] + RowCodec.Counted(v.s)
    ensures v.Bytes? ==> RowCodec.EncodeValue(v) == [0x0A] + RowCodec.Counted(v.bytes)
    ensures v.Json? ==> RowCodec.EncodeValue(v) == [0x0F] + RowCodec.Counted(v.json)
  {
    hide RowCodec.EncodeValues, RowCodec.FixedBytes, RowCodec.Counted;
  }

  /** Rows start with AA; then they count and list their columns. */
  lemma RowStart(a: RowCodec.Value, b: RowCodec.Value)
    ensures RowCodec.ToBytes([]) == [0xAA, 0x00, 0x00, 0x00, 0x00]
    ensures RowCodec.ToBytes([a, b]) == [0xAA, 0x02, 0x00, 0x00, 0x00] + (RowCodec.EncodeValue(a) + RowCodec.EncodeValue(b))
  {
    RowTwo(a, b);
    hide ToLe, RowCodec.EncodeValue, RowCodec.EncodeValues, RowCodec.ToBytes;
    Small(0);
    Small(2);
    RowIs([]);
    RowIs([a, b]);
  }

  lemma RowArray(a: RowCodec.Value, b: RowCodec.Value)
    ensures RowCodec.EncodeValue(RowCodec.Array([a, b]))
         == [0x10] + ([0x02, 0x00, 0x00, 0x00] + (RowCodec.EncodeValue(a) + RowCodec.EncodeValue(b)))
  {
    RowTwo(a, b);
    hide ToLe, RowCodec.EncodeValue, RowCodec.EncodeValues;
    Small(2);
    ArrayIs(RowCodec.Array([a, b]));
  }

  lemma RowTwo(a: RowCodec.Value, b: RowCodec.Value)
    ensures RowCodec.EncodeValues([a, b]) == RowCodec.EncodeValue(a) + RowCodec.EncodeValue(b)
    ensures RowCodec.EncodeValues([]) == []
  {
    hide RowCodec.EncodeValue;
    assert [a, b][..1] == [a] && [a][..0] == [];
    assert RowCodec.EncodeValues([a]) == RowCodec.EncodeValues([]) + RowCodec.EncodeValue(a);
    assert RowCodec.EncodeValues([a, b]) == RowCodec.EncodeValues([a]) + RowCodec.EncodeValue(b);
  }

  /** The narrow numbers: a tag and two's complement, lowest byte first. */
  lemma RowNarrow()
    ensures RowCodec.EncodeValue(RowCodec.TinyInt(-1)) == [0x02, 0xFF]
    ensures RowCodec.EncodeValue(RowCodec.SmallInt(-2)) == [0x03, 0xFE, 0xFF]
  {
    hide ToLe, Pow256, RowCodec.EncodeValues;
    Powers();
    NoBytes();
    LowFirst(0xFF, 0, 0);
    TwoBytes(0xFF, 0xFE);
  }

  lemma RowIntegers()
    ensures RowCodec.EncodeValue(RowCodec.Integer(0x01020304)) == [0x04, 0x04, 0x03, 0x02, 0x01]
    ensures RowCodec.EncodeValue(RowCodec.Integer(-1)) == [0x04, 0xFF, 0xFF, 0xFF, 0xFF]
  {
    hide ToLe, Pow256, RowCodec.EncodeValues;
    Powers();
    FourBytes(0x04, 0x03, 0x02, 0x01);
    FourBytes(0xFF, 0xFF, 0xFF, 0xFF);
  }

  lemma RowWide(a: Byte)
    ensures RowCodec.EncodeValue(RowCodec.BigInt(a)) == [0x05, a, 0x00, 0x00, 0x00, 0x00, 0x00, 0x00, 0x00]
    ensures RowCodec.EncodeValue(RowCodec.Date(a)) == [0x0B, a, 0x00, 0x00, 0x00]
  {
    hide ToLe, Pow256, RowCodec.EncodeValues;
    Powers();
    Small(a);
  }

  /** Values kept as their bytes, behind their tag. */
  lemma RowBytes(a: RowCodec.Word4, b: RowCodec.Word8, c: RowCodec.Word16)
    ensures RowCodec.EncodeValue(RowCodec.Null) == [0x00] && RowCodec.EncodeValue(RowCodec.Boolean(false)) == [0x01, 0x00]
    ensures RowCodec.EncodeValue(RowCodec.Float(a)) == [0x06] + a && RowCodec.EncodeValue(RowCodec.Double(b)) == [0x07] + b
    ensures RowCodec.EncodeValue(RowCodec.Decimal(c)) == [0x08] + c && RowCodec.EncodeValue(RowCodec.Uuid(c)) == [0x0E] + c
  {
  }

  /** Values of several numbers. */
  lemma RowTimes(a: Byte, b: Byte)
    ensures RowCodec.EncodeValue(RowCodec.Time(a, b)) == [0x0C, a, 0x00, 0x00, 0x00, b, 0x00, 0x00, 0x00]
    ensures RowCodec.EncodeValue(RowCodec.Timestamp(a, b))
         == [0x0D, a, 0x00, 0x00, 0x00, 0x00, 0x00, 0x00, 0x00, b, 0x00, 0x00, 0x00]
  {
    hide ToLe, Pow256, RowCodec.EncodeValues;
    Powers();
    Small(a);
    Small(b);
  }

  lemma RowInterval(a: Byte, b: Byte, c: Byte)
    ensures RowCodec.EncodeValue(RowCodec.Interval(a, b, c))
         == [0x11, a, 0x00, 0x00, 0x00, b, 0x00, 0x00, 0x00, c, 0x00, 0x00, 0x00, 0x00, 0x00, 0x00, 0x00]
  {
    hide ToLe, Pow256, RowCodec.EncodeValues;
    Powers();
    Small(a);
    Small(b);
    Small(c);
  }

  /** Values of counted length. */
  lemma RowCounted(bs: seq<Byte>)
    requires |bs| < 256
    ensures ValidUtf8(bs) ==> RowCodec.EncodeValue(RowCodec.String(bs)) == [0x09] + ([|bs|, 0x00, 0x00, 0x00] + bs)
    ensures RowCodec.EncodeValue(RowCodec.Bytes(bs)) == [0x0A] + ([|bs|, 0x00, 0x00, 0x00] + bs)
    ensures RowCodec.EncodeValue(RowCodec.Json(bs)) == [0x0F] + ([|bs|, 0x00, 0x00, 0x00] + bs)
  {
    hide ToLe, ValidUtf8, RowCodec.EncodeValue;
    Small(|bs|);
    if ValidUtf8(bs) {
      CountedIs(RowCodec.String(bs));
    }
    CountedIs(RowCodec.Bytes(bs));
    CountedIs(RowCodec.Json(bs));
  }

  // ---------------------------------------------------------------- log frames, store headers, backups

  /** A log frame: length, checksum, payload. */
  lemma LogFrame(c: WalFrames.Codec, r: Record)
    requires c.enc(r) == DIGITS
    ensures WalFrames.Frame(c, r) == [0x09, 0x00, 0x00, 0x00, 0x26, 0x39, 0xF4, 0xCB] + DIGITS
  {
    hide ToLe, Checksum.Crc32;
    CheckValue();
    Small(9);
    FourBytes(0x26, 0x39, 0xF4, 0xCB);
  }

  /** A header record: magic, version, offset and length of the last checkpoint, checksum of these. */
  lemma StoreHeader(h: FileStore.Header)
    ensures var bs := FileStore.Serialize(h);
            && bs[..4] == [0x48, 0x32, 0x52, 0x53] && bs[24..28] == ToLe(Checksum.Crc32(bs[..24]), 4)
            && (h.version < 0x100 ==> bs[4..12] == [h.version, 0x00, 0x00, 0x00, 0x00, 0x00, 0x00, 0x00])
            && (h.lastOffset < 0x100 ==> bs[12..20] == [h.lastOffset, 0x00, 0x00, 0x00, 0x00, 0x00, 0x00, 0x00])
            && (h.lastLength < 0x100 ==> bs[20..24] == [h.lastLength, 0x00, 0x00, 0x00])
  {
    hide ToLe, Checksum.Crc32;
    var bs := FileStore.Serialize(h);
    var body := FileStore.MAGIC + ToLe(h.version, 8) + ToLe(h.lastOffset, 8) + ToLe(h.lastLength, 4);
    assert bs[..24] == body && bs[24..28] == ToLe(Checksum.Crc32(body), 4);
    assert bs[4..12] == ToLe(h.version, 8) && bs[12..20] == ToLe(h.lastOffset, 8) && bs[20..24] == ToLe(h.lastLength, 4);
    if h.version < 0x100 { Small(h.version); }
    if h.lastOffset < 0x100 { Small(h.lastOffset); }
    if h.lastLength < 0x100 { Small(h.lastLength); }
  }

  /** A backup header: magic, format, times and versions, two flags, number of maps, checksum of these. */
  lemma BackupHeader(version: Byte, time: Byte, replica: bool, maps: Byte)
    ensures var bs := Backup.EncodeHeader(Backup.Info(version, time, replica), maps);
            && bs[..8] == [0x48, 0x32, 0x42, 0x4B, 0x01, 0x00, 0x00, 0x00]
            && bs[8..16] == bs[32..40] == [time, 0x00, 0x00, 0x00, 0x00, 0x00, 0x00, 0x00]
            && bs[16..24] == bs[24..32] == [version, 0x00, 0x00, 0x00, 0x00, 0x00, 0x00, 0x00]
            && bs[40] == (if replica then 0x01 else 0x00) && bs[41] == 0x01 && bs[42..46] == [maps, 0x00, 0x00, 0x00]
            && (forall i :: 46 <= i < 60 ==> bs[i] == 0x00) && bs[60..64] == ToLe(Checksum.Crc32(bs[..60]), 4)
  {
    hide ToLe, Checksum.Crc32, Backup.EncodeHeader;
    Small(1);
    Small(version);
    Small(time);
    Small(maps);
    HeaderParts(Backup.Info(version, time, replica), maps);
  }

  /** Where the parts of a backup header stand. */
  lemma HeaderParts(info: Backup.Info, maps: nat)
    ensures var bs := Backup.EncodeHeader(info, maps);
            && bs[..8] == [0x48, 0x32, 0x42, 0x4B] + ToLe(1, 4)
            && bs[8..16] == bs[32..40] == ToLe(info.timestamp, 8)
            && bs[16..24] == bs[24..32] == ToLe(info.snapshotVersion, 8)
            && bs[40] == (if info.isReplica then 0x01 else 0x00) && bs[41] == 0x01 && bs[42..46] == ToLe(maps, 4)
            && (forall i :: 46 <= i < 60 ==> bs[i] == 0x00) && bs[60..64] == ToLe(Checksum.Crc32(bs[..60]), 4)
  {
    hide ToLe, Checksum.Crc32;
    var bs, body := Backup.EncodeHeader(info, maps), Backup.HeaderBody(info, maps);
    assert bs[..60] == body && bs[60..64] == ToLe(Checksum.Crc32(body), 4);
    assert forall i :: 0 <= i < 60 ==> bs[i] == body[i];
    assert bs[..8] == Backup.BACKUP_MAGIC + ToLe(1, 4);
    assert bs[8..16] == ToLe(info.timestamp, 8) && bs[16..24] == ToLe(info.snapshotVersion, 8);
    assert bs[24..32] == ToLe(info.snapshotVersion, 8) && bs[32..40] == ToLe(info.timestamp, 8);
    assert bs[42..46] == ToLe(maps, 4);
  }

  /** A backup trailer: payload length and checksum, number of entries, magic. */
  lemma BackupTrailer(n: Byte)
    ensures Backup.EncodeTrailer(DIGITS, n)
         == [0x09, 0x00, 0x00, 0x00, 0x00, 0x00, 0x00, 0x00] + [0x26, 0x39, 0xF4, 0xCB]
            + [n, 0x00, 0x00, 0x00, 0x00, 0x00, 0x00, 0x00] + [0x48, 0x32, 0x45, 0x46]
  {
    hide ToLe, Checksum.Crc32;
    CheckValue();
    Small(9);
    Small(n);
    FourBytes(0x26, 0x39, 0xF4, 0xCB);
  }

  /** A section of one entry up to its checksum: name, number of entries, key and value. */
  lemma BackupSection(name: Byte, key: Byte, value: Byte)
    ensures Backup.SectionBody(Backup.Section([name], [Entry([key], [value])]))
         == [0x01, 0x00, 0x00, 0x00, name, 0x01, 0x00, 0x00, 0x00, 0x00, 0x00, 0x00, 0x00,
             0x01, 0x00, 0x00, 0x00, key, 0x01, 0x00, 0x00, 0x00, value]
  {
    hide ToLe;
    Small(1);
    var e := Entry([key], [value]);
    assert Backup.EncodeEntries([e]) == Backup.EncodeEntries([]) + Backup.EncodeEntry(e);
  }

  /** Sections end with their checksum, and no other magic, format or trailer makes a backup. */
  lemma BackupOutline(bytes: seq<Byte>, info: Backup.Info, ss: seq<Backup.Section>)
    ensures forall s :: Backup.EncodeSection(s) == Backup.SectionBody(s) + ToLe(Checksum.Crc32(Backup.SectionBody(s)), 4)
    ensures Backup.IsBackup(bytes, info, ss) ==>
              && |bytes| >= 64 && bytes[..4] == [0x48, 0x32, 0x42, 0x4B] && FromLe(bytes[4..8]) == 1
              && FromLe(bytes[42..46]) == |ss| && FromLe(bytes[60..64]) == Checksum.Crc32(bytes[..60])
              && var end := 64 + |Backup.EncodeSections(ss)|;
                 end + 24 <= |bytes| && bytes[64..end] == Backup.EncodeSections(ss) && bytes[end + 20..end + 24] == [0x48, 0x32, 0x45, 0x46]
  {
    hide ToLe, FromLe, Checksum.Crc32, Backup.EncodeSections, Backup.EncodeTrailer, Backup.CountEntries, Backup.AllSectionsFit,
         Backup.SectionBody, Pow256;
    if Backup.IsBackup(bytes, info, ss) {
      Backup.TrailerPieces(bytes, 64 + |Backup.EncodeSections(ss)|, Backup.EncodeSections(ss), Backup.CountEntries(ss));
    }
  }

  // ---------------------------------------------------------------- adjacency keys

  /** The end, then the type between 01 and 00 or the mark 02, then the edge, highest bytes first. */
  lemma AdjacencyKeys(node: Byte, t: Byte, edge: Byte)
    ensures GraphStore.EncodeAdjKey(node, Some([t]), Some(edge))
         == [0x00, 0x00, 0x00, 0x00, 0x00, 0x00, 0x00, node, 0x01, t, 0x00, 0x00, 0x00, 0x00, 0x00, 0x00, 0x00, 0x00, edge]
    ensures GraphStore.EncodeAdjKey(node, Some([t]), None) == [0x00, 0x00, 0x00, 0x00, 0x00, 0x00, 0x00, node, 0x01, t, 0x00]
    ensures GraphStore.EncodeAdjKey(node, None, Some(edge))
         == [0x00, 0x00, 0x00, 0x00, 0x00, 0x00, 0x00, node, 0x02, 0x00, 0x00, 0x00, 0x00, 0x00, 0x00, 0x00, edge]
    ensures GraphStore.EncodeAdjKey(node, None, None) == [0x00, 0x00, 0x00, 0x00, 0x00, 0x00, 0x00, node]
  {
    hide ToBe;
    Small(node);
    Small(edge);
  }
}
