/**
 * Which bytes stand for which value in a row, said without the encoder or the decoder. The decoder
 * reads exactly these, any non-zero byte as true, decimals and documents in their normal form.
 */
module RowGrammar {
  import opened Bytes
  import opened Encoding
  import opened Utf8
  import opened RowCodec

  // ---------------------------------------------------------------- the grammar

  /** A signed number of some width, lowest byte first. */
  ghost predicate IsSigned(bs: seq<Byte>, i: int, width: nat) {
    FitsSigned(i, width) && bs == ToLe(if i < 0 then i + Pow256(width) else i, width)
  }

  ghost predicate IsU32(bs: seq<Byte>, n: nat) {
    n < 0x1_0000_0000 && bs == ToLe(n, 4)
  }

  /** The bytes of a value of fixed size, behind its tag. */
  ghost predicate FixedDenotes(lib: Library, tag: Byte, bs: seq<Byte>, v: Value) {
    match v
    case Null => tag == 0 && bs == []
    case Boolean(b) => tag == 1 && |bs| == 1 && b == (bs[0] != 0)
    case TinyInt(i) => tag == 2 && IsSigned(bs, i, 1)
    case SmallInt(i) => tag == 3 && IsSigned(bs, i, 2)
    case Integer(i) => tag == 4 && IsSigned(bs, i, 4)
    case BigInt(i) => tag == 5 && IsSigned(bs, i, 8)
    case Float(f) => tag == 6 && bs == f
    case Double(f) => tag == 7 && bs == f
    case Decimal(d) => tag == 8 && |bs| == 16 && d == lib.decimal(bs)
    case Date(d) => tag == 11 && IsSigned(bs, d, 4) && lib.isDate(d)
    case Time(secs, nanos) => tag == 12 && |bs| == 8 && IsU32(bs[..4], secs) && IsU32(bs[4..], nanos) && lib.isTime(secs, nanos)
    case Timestamp(secs, nanos) =>
      tag == 13 && |bs| == 12 && IsSigned(bs[..8], secs, 8) && IsU32(bs[8..], nanos) && lib.isTimestamp(secs, nanos)
    case Uuid(u) => tag == 14 && bs == u
    case Interval(months, days, micros) =>
      tag == 17 && |bs| == 16 && IsSigned(bs[..4], months, 4) && IsSigned(bs[4..8], days, 4) && IsSigned(bs[8..], micros, 8)
    case _ => false
  }

  /** The bytes of a value of counted length, behind its tag and length. */
  ghost predicate CountedDenotes(lib: Library, tag: Byte, bs: seq<Byte>, v: Value) {
    match v
    case String(s) => tag == 9 && bs == s
    case Bytes(b) => tag == 10 && bs == b
    case Json(j) => tag == 15 && lib.parseJson(bs) == Some(j)
    case _ => false
  }

  /** The bytes stand for the value. */
  ghost predicate Denotes(lib: Library, bs: seq<Byte>, v: Value)
    decreases |bs|, 0
  {
    bs != [] &&
    if v.Array? then
      bs[0] == 16 && |bs| >= 5 && IsU32(bs[1..5], |v.items|) && AllDenote(lib, bs[5..], v.items)
    else if v.String? || v.Bytes? || v.Json? then
      |bs| >= 5 && IsU32(bs[1..5], |bs| - 5) && CountedDenotes(lib, bs[0], bs[5..], v)
    else FixedDenotes(lib, bs[0], bs[1..], v)
  }

  /** The bytes stand for the values, one behind the other. */
  ghost predicate AllDenote(lib: Library, bs: seq<Byte>, vs: seq<Value>)
    decreases |bs|, |vs| + 1
  {
    if vs == [] then bs == []
    else exists k :: 0 <= k <= |bs| && AllDenote(lib, bs[..k], vs[..|vs| - 1]) && Denotes(lib, bs[k..], vs[|vs| - 1])
  }

  /** The bytes stand for a row: magic byte, column count, columns. */
  ghost predicate RowDenotes(lib: Library, bs: seq<Byte>, row: seq<Value>) {
    |bs| >= 5 && bs[0] == 0xAA && IsU32(bs[1..5], |row|) && AllDenote(lib, bs[5..], row)
  }

  // ---------------------------------------------------------------- numbers and fixed sizes

  lemma SignedExactly(bs: seq<Byte>, i: int)
    ensures ReadSigned(bs) == i <==> IsSigned(bs, i, |bs|)
  {
    hide ToLe, FromLe, Pow256;
    LeInverse(bs);
    LeBounded(bs);
    var w := |bs|;
    if FitsSigned(i, w) {
      LeRoundTrip(if i < 0 then i + Pow256(w) else i, w);
    }
  }

  lemma U32Exactly(bs: seq<Byte>, n: nat)
    requires |bs| == 4
    ensures ReadU32(bs) == n <==> IsU32(bs, n)
  {
    hide ToLe, FromLe, Pow256;
    Powers();
    LeInverse(bs);
    LeBounded(bs);
    if n < 0x1_0000_0000 {
      LeRoundTrip(n, 4);
    }
  }

  /** The numbers of fixed size. */
  lemma NumberExactly(lib: Library, tag: Byte, bs: seq<Byte>, v: Value)
    requires FixedSize(tag) == Some(|bs|) && (tag <= 5 || tag == 11)
    ensures FixedValue(lib, tag, bs) == Some(v) <==> FixedDenotes(lib, tag, bs, v)
  {
    hide ReadSigned, ReadU32, Pow256, IsSigned, IsU32;
    match v
    case TinyInt(i) => SignedExactly(bs, i);
    case SmallInt(i) => SignedExactly(bs, i);
    case Integer(i) => SignedExactly(bs, i);
    case BigInt(i) => SignedExactly(bs, i);
    case Date(d) => SignedExactly(bs, d);
    case _ =>
  }

  /** The other values of fixed size. */
  lemma PartsExactly(lib: Library, tag: Byte, bs: seq<Byte>, v: Value)
    requires FixedSize(tag) == Some(|bs|) && tag > 5 && tag != 11 && tag != 17
    ensures FixedValue(lib, tag, bs) == Some(v) <==> FixedDenotes(lib, tag, bs, v)
  {
    hide ReadSigned, ReadU32, Pow256, IsSigned, IsU32;
    match v
    case Time(secs, nanos) =>
      if tag == 12 {
        U32Exactly(bs[..4], secs);
        U32Exactly(bs[4..], nanos);
      }
    case Timestamp(secs, nanos) =>
      if tag == 13 {
        SignedExactly(bs[..8], secs);
        U32Exactly(bs[8..], nanos);
      }
    case _ =>
  }

  lemma IntervalExactly(lib: Library, bs: seq<Byte>, v: Value)
    requires |bs| == 16
    ensures FixedValue(lib, 17, bs) == Some(v) <==> FixedDenotes(lib, 17, bs, v)
  {
    hide ReadSigned, ReadU32, Pow256, IsSigned, IsU32;
    if v.Interval? {
      SignedExactly(bs[..4], v.months);
      SignedExactly(bs[4..8], v.days);
      SignedExactly(bs[8..], v.micros);
    }
  }

  lemma IntervalSize()
    ensures FixedSize(17) == Some(16)
  {
  }

  lemma FixedExactly(lib: Library, tag: Byte, bs: seq<Byte>, v: Value)
    requires FixedSize(tag) == Some(|bs|)
    ensures FixedValue(lib, tag, bs) == Some(v) <==> FixedDenotes(lib, tag, bs, v)
  {
    hide FixedSize, FixedValue, FixedDenotes;
    if tag <= 5 || tag == 11 {
      NumberExactly(lib, tag, bs, v);
    } else if tag == 17 {
      IntervalSize();
      IntervalExactly(lib, bs, v);
    } else {
      PartsExactly(lib, tag, bs, v);
    }
  }

  /** Only bytes of the right number stand for a value of fixed size. */
  lemma FixedSized(lib: Library, tag: Byte, bs: seq<Byte>, v: Value)
    requires FixedDenotes(lib, tag, bs, v)
    ensures FixedSize(tag) == Some(|bs|) && IsFixed(v)
  {
  }

  lemma CountedExactly(lib: Library, tag: Byte, bs: seq<Byte>, v: Value)
    requires tag == 9 || tag == 10 || tag == 15
    ensures CountedValue(lib, tag, bs) == Some(v) <==> CountedDenotes(lib, tag, bs, v)
    ensures CountedDenotes(lib, tag, bs, v) ==> v.String? || v.Bytes? || v.Json?
  {
    hide ValidUtf8;
  }

  lemma PartOfFront(buf: seq<Byte>, n: nat, i: nat, j: nat)
    requires i <= j <= n <= |buf|
    ensures buf[..n][i..j] == buf[i..j] && buf[..n][i..] == buf[i..][..n - i] == buf[i..n]
  {
    var part, direct := buf[..n][i..j], buf[i..j];
    forall k | 0 <= k < j - i ensures part[k] == direct[k] {
      assert part[k] == buf[i + k];
    }
  }

  // ---------------------------------------------------------------- everything read is in the grammar

  lemma FixedSound(lib: Library, buf: seq<Byte>)
    requires buf != [] && FixedSize(buf[0]).Some? && DecodeValue(lib, buf).Ok?
    ensures Denotes(lib, buf[..DecodeValue(lib, buf).consumed], DecodeValue(lib, buf).value)
  {
    hide FixedSize, FixedValue, FixedDenotes;
    var r := DecodeValue(lib, buf);
    var bs := buf[..r.consumed];
    PartOfFront(buf, r.consumed, 1, 1);
    FixedExactly(lib, buf[0], bs[1..], r.value);
    FixedSized(lib, buf[0], bs[1..], r.value);
  }

  lemma CountedSound(lib: Library, buf: seq<Byte>)
    requires buf != [] && FixedSize(buf[0]).None? && buf[0] != 16 && DecodeValue(lib, buf).Ok?
    ensures Denotes(lib, buf[..DecodeValue(lib, buf).consumed], DecodeValue(lib, buf).value)
  {
    hide CountedValue, CountedDenotes, ReadU32, IsU32, FixedDenotes;
    var r := DecodeValue(lib, buf);
    var bs := buf[..r.consumed];
    PartOfFront(buf, r.consumed, 1, 5);
    PartOfFront(buf, r.consumed, 5, 5);
    U32Exactly(buf[1..5], r.consumed - 5);
    CountedExactly(lib, buf[0], bs[5..], r.value);
  }

  lemma {:induction false} DecodeSound(lib: Library, buf: seq<Byte>)
    requires DecodeValue(lib, buf).Ok?
    ensures Denotes(lib, buf[..DecodeValue(lib, buf).consumed], DecodeValue(lib, buf).value)
    decreases |buf|, 0
  {
    hide ReadU32, IsU32, FixedDenotes, CountedValue, DecodeFixed, AllDenote, DecodeValues;
    if FixedSize(buf[0]).Some? {
      FixedSound(lib, buf);
    } else if buf[0] != 16 {
      CountedSound(lib, buf);
    } else {
      var n := ReadU32(buf[1..5]);
      U32Exactly(buf[1..5], n);
      ItemsSound(lib, buf[5..], n);
      var r := DecodeValue(lib, buf);
      var bs := buf[..r.consumed];
      PartOfFront(buf, r.consumed, 1, 5);
      PartOfFront(buf, r.consumed, 5, 5);
    }
  }

  lemma {:induction false} ItemsSound(lib: Library, buf: seq<Byte>, n: nat)
    requires DecodeValues(lib, buf, n).Ok?
    ensures var r := DecodeValues(lib, buf, n);
            |r.value| == n && AllDenote(lib, buf[..r.consumed], r.value)
    decreases |buf|, n + 1
  {
    hide DecodeValue, Denotes;
    if n > 0 {
      ItemsSound(lib, buf, n - 1);
      var before, r := DecodeValues(lib, buf, n - 1), DecodeValues(lib, buf, n);
      var at := before.consumed;
      DecodeSound(lib, buf[at..]);
      var bs := buf[..r.consumed];
      assert bs[..at] == buf[..at];
      PartOfFront(buf, r.consumed, at, at);
      assert r.value[..n - 1] == before.value;
    }
  }

  // ---------------------------------------------------------------- everything in the grammar is read

  lemma FixedRead(lib: Library, bs: seq<Byte>, v: Value, rest: seq<Byte>)
    requires bs != [] && FixedDenotes(lib, bs[0], bs[1..], v)
    ensures DecodeValue(lib, bs + rest) == Ok(v, |bs|)
  {
    FixedSized(lib, bs[0], bs[1..], v);
    FixedExactly(lib, bs[0], bs[1..], v);
    hide FixedSize, FixedValue, FixedDenotes;
    var buf := bs + rest;
    assert buf[0] == bs[0] && buf[1..|bs|] == bs[1..];
  }

  lemma CountedRead(lib: Library, bs: seq<Byte>, v: Value, rest: seq<Byte>)
    requires |bs| >= 5 && IsU32(bs[1..5], |bs| - 5) && CountedDenotes(lib, bs[0], bs[5..], v)
    ensures DecodeValue(lib, bs + rest) == Ok(v, |bs|)
  {
    CountedExactly(lib, bs[0], bs[5..], v);
    hide CountedValue, CountedDenotes, ReadU32, IsU32;
    var buf := bs + rest;
    assert buf[0] == bs[0] && buf[1..5] == bs[1..5] && buf[5..|bs|] == bs[5..];
    U32Exactly(bs[1..5], |bs| - 5);
  }

  lemma {:induction false} DecodeComplete(lib: Library, bs: seq<Byte>, v: Value, rest: seq<Byte>)
    requires Denotes(lib, bs, v)
    ensures DecodeValue(lib, bs + rest) == Ok(v, |bs|)
    decreases |bs|, 0
  {
    hide FixedDenotes, CountedDenotes, ReadU32, IsU32, AllDenote, DecodeValues, DecodeFixed, CountedValue;
    if v.Array? {
      var buf := bs + rest;
      AllComplete(lib, bs[5..], v.items, rest);
      U32Exactly(bs[1..5], |v.items|);
      assert buf[0] == 16 && buf[1..5] == bs[1..5] && buf[5..] == bs[5..] + rest;
    } else if v.String? || v.Bytes? || v.Json? {
      CountedRead(lib, bs, v, rest);
    } else {
      FixedRead(lib, bs, v, rest);
    }
  }

  lemma {:induction false} AllComplete(lib: Library, bs: seq<Byte>, vs: seq<Value>, rest: seq<Byte>)
    requires AllDenote(lib, bs, vs)
    ensures DecodeValues(lib, bs + rest, |vs|) == Ok(vs, |bs|)
    decreases |bs|, |vs| + 1
  {
    hide DecodeValue, Denotes;
    if vs != [] {
      var front, last := vs[..|vs| - 1], vs[|vs| - 1];
      var k :| 0 <= k <= |bs| && AllDenote(lib, bs[..k], front) && Denotes(lib, bs[k..], last);
      AllComplete(lib, bs[..k], front, bs[k..] + rest);
      DecodeComplete(lib, bs[k..], last, rest);
      assert bs + rest == bs[..k] + (bs[k..] + rest);
      assert (bs + rest)[k..] == bs[k..] + rest;
      assert vs == front + [last];
    }
  }

  /** The decoder reads a value exactly when the bytes it consumes stand for that value. */
  lemma DecodeExactly(lib: Library, buf: seq<Byte>, v: Value, n: nat)
    ensures DecodeValue(lib, buf) == Ok(v, n) <==> n <= |buf| && Denotes(lib, buf[..n], v)
  {
    hide DecodeValue, Denotes;
    if DecodeValue(lib, buf) == Ok(v, n) {
      DecodeSound(lib, buf);
    }
    if n <= |buf| && Denotes(lib, buf[..n], v) {
      DecodeComplete(lib, buf[..n], v, buf[n..]);
      assert buf == buf[..n] + buf[n..];
    }
  }

  /** A row is read from bytes exactly when some beginning of them stands for it. */
  lemma RowExactly(lib: Library, bytes: seq<Byte>, row: seq<Value>)
    ensures FromBytes(lib, bytes) == Some(row) <==> exists n :: 0 <= n <= |bytes| && RowDenotes(lib, bytes[..n], row)
  {
    hide DecodeValues, AllDenote, ReadU32, IsU32;
    if FromBytes(lib, bytes) == Some(row) {
      U32Exactly(bytes[1..5], ReadU32(bytes[1..5]));
      ItemsSound(lib, bytes[5..], ReadU32(bytes[1..5]));
      var n := 5 + DecodeValues(lib, bytes[5..], ReadU32(bytes[1..5])).consumed;
      PartOfFront(bytes, n, 1, 5);
      PartOfFront(bytes, n, 5, 5);
      assert RowDenotes(lib, bytes[..n], row);
    }
    forall n | 0 <= n <= |bytes| && RowDenotes(lib, bytes[..n], row) ensures FromBytes(lib, bytes) == Some(row) {
      var bs := bytes[..n];
      AllComplete(lib, bs[5..], row, bytes[n..]);
      U32Exactly(bs[1..5], |row|);
      PartOfFront(bytes, n, 1, 5);
      assert bytes[5..] == bs[5..] + bytes[n..];
    }
  }

  /** What is written for a storable value stands for it. */
  lemma EncodedDenotes(lib: Library, v: Value)
    requires Storable(lib, v)
    ensures Denotes(lib, EncodeValue(v), v)
  {
    hide DecodeValue, Denotes, EncodeValue, Storable;
    ValueRoundTrip(lib, v, []);
    assert EncodeValue(v) + [] == EncodeValue(v);
    DecodeExactly(lib, EncodeValue(v), v, |EncodeValue(v)|);
    assert EncodeValue(v)[..|EncodeValue(v)|] == EncodeValue(v);
  }
}
