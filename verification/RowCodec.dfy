/** The binary row format: a magic byte, a column count, and one tagged value per column. */
module RowCodec {
  import opened Bytes
  import opened Encoding
  import opened Utf8

  type Word4 = s: seq<Byte> | |s| == 4 witness [0, 0, 0, 0]
  type Word8 = s: seq<Byte> | |s| == 8 witness [0, 0, 0, 0, 0, 0, 0, 0]
  type Word16 = s: seq<Byte> | |s| == 16 witness [0, 0, 0, 0, 0, 0, 0, 0, 0, 0, 0, 0, 0, 0, 0, 0]

  /** A string as its UTF-8 bytes. */
  type Text = s: seq<Byte> | ValidUtf8(s) witness []

  /** A JSON document as the text the serializer prints for it. */
  type JsonText = s: seq<Byte> | |s| < 0x1_0000_0000 witness []

  /** Floats, decimals and identifiers are their bytes; dates and times the numbers that are stored. */
  datatype Value =
    | Null
    | Boolean(b: bool)
    | TinyInt(i8: I8)
    | SmallInt(i16: I16)
    | Integer(i32: I32)
    | BigInt(i64: I64)
    | Float(f32: Word4)
    | Double(f64: Word8)
    | Decimal(decimal: Word16)
    | String(s: Text)
    | Bytes(bytes: seq<Byte>)
    | Date(days: I32)
    | Time(secs: U32, nanos: U32)
    | Timestamp(epoch: I64, subsec: U32)
    | Uuid(uuid: Word16)
    | Json(json: JsonText)
    | Array(items: seq<Value>)
    | Interval(months: I32, days: I32, micros: I64)

  /**
   * What other libraries contribute: normalising a decimal's bytes, which numbers are dates and times,
   * parsing JSON to its printed form, and converting floats to integers.
   */
  datatype Library = Library(
    decimal: Word16 -> Word16,
    isDate: I32 -> bool,
    isTime: (U32, U32) -> bool,
    isTimestamp: (I64, U32) -> bool,
    parseJson: seq<Byte> -> Option<JsonText>,
    truncate32: Word4 -> I64,
    truncate64: Word8 -> I64)

  /** Normalising twice is normalising once, and printed JSON parses to itself. */
  ghost predicate Lawful(lib: Library) {
    && (forall d :: lib.decimal(lib.decimal(d)) == lib.decimal(d))
    && (forall t, j :: lib.parseJson(t) == Some(j) ==> lib.parseJson(j) == Some(j))
  }

  // ---------------------------------------------------------------- encoding

  function Tag(v: Value): (t: Byte) {
    match v
    case Null => 0
    case Boolean(_) => 1
    case TinyInt(_) => 2
    case SmallInt(_) => 3
    case Integer(_) => 4
    case BigInt(_) => 5
    case Float(_) => 6
    case Double(_) => 7
    case Decimal(_) => 8
    case String(_) => 9
    case Bytes(_) => 10
    case Date(_) => 11
    case Time(_, _) => 12
    case Timestamp(_, _) => 13
    case Uuid(_) => 14
    case Json(_) => 15
    case Array(_) => 16
    case Interval(_, _, _) => 17
  }

  /** A signed integer in two's complement, lowest byte first. */
  function SignedLe(i: int, width: nat): (bs: seq<Byte>)
    requires FitsSigned(i, width)
    ensures |bs| == width
  {
    ToLe(ToUnsigned(i, width), width)
  }

  /** The bytes behind the tag of a value of fixed size. */
  function FixedBytes(v: Value): (bs: seq<Byte>)
    requires !v.String? && !v.Bytes? && !v.Json? && !v.Array?
  {
    Powers();
    match v
    case Null => []
    case Boolean(b) => if b then [1] else [0]
    case TinyInt(i) => SignedLe(i, 1)
    case SmallInt(i) => SignedLe(i, 2)
    case Integer(i) => SignedLe(i, 4)
    case BigInt(i) => SignedLe(i, 8)
    case Float(f) => f
    case Double(f) => f
    case Decimal(d) => d
    case Date(d) => SignedLe(d, 4)
    case Time(secs, nanos) => ToLe(secs, 4) + ToLe(nanos, 4)
    case Timestamp(secs, nanos) => SignedLe(secs, 8) + ToLe(nanos, 4)
    case Uuid(u) => u
    case Interval(months, days, micros) => SignedLe(months, 4) + SignedLe(days, 4) + SignedLe(micros, 8)
  }

  /** A length, cut to four bytes, and that many bytes. */
  function Counted(bs: seq<Byte>): (r: seq<Byte>) {
    ToLe(|bs|, 4) + bs
  }

  function EncodeValue(v: Value): (bs: seq<Byte>)
    ensures |bs| >= 1 && bs[0] == Tag(v)
    decreases v
  {
    [Tag(v)] +
    match v
    case String(s) => Counted(s)
    case Bytes(b) => Counted(b)
    case Json(j) => Counted(j)
    case Array(vs) => ToLe(|vs|, 4) + EncodeValues(vs)
    case _ => FixedBytes(v)
  }

  function EncodeValues(vs: seq<Value>): (bs: seq<Byte>)
    decreases vs
  {
    if vs == [] then [] else EncodeValues(vs[..|vs| - 1]) + EncodeValue(vs[|vs| - 1])
  }

  const MAGIC: Byte := 0xAA

  function ToBytes(row: seq<Value>): (bs: seq<Byte>) {
    [MAGIC] + ToLe(|row|, 4) + EncodeValues(row)
  }

  lemma ValuesSnoc(vs: seq<Value>, i: nat)
    requires i < |vs|
    ensures EncodeValues(vs[..i + 1]) == EncodeValues(vs[..i]) + EncodeValue(vs[i])
  {
    hide EncodeValue;
    assert vs[..i + 1][..i] == vs[..i];
  }

  /** Appends the encoding of a value to a buffer. */
  method PushValue(v: Value, buf: seq<Byte>) returns (buf': seq<Byte>)
    ensures buf' == buf + EncodeValue(v)
    decreases v
  {
    hide EncodeValues, ToLe, FixedBytes;
    buf' := buf + [Tag(v)];
    match v
    case String(s) =>
      buf' := buf' + ToLe(|s|, 4);
      buf' := buf' + s;
    case Bytes(b) =>
      buf' := buf' + ToLe(|b|, 4);
      buf' := buf' + b;
    case Json(j) =>
      buf' := buf' + ToLe(|j|, 4);
      buf' := buf' + j;
    case Array(vs) =>
      buf' := buf' + ToLe(|vs|, 4);
      buf' := PushValues(vs, buf');
    case _ =>
      buf' := buf' + FixedBytes(v);
  }

  method PushValues(vs: seq<Value>, buf: seq<Byte>) returns (buf': seq<Byte>)
    ensures buf' == buf + EncodeValues(vs)
    decreases vs
  {
    hide EncodeValue;
    buf' := buf;
    for i := 0 to |vs|
      invariant buf' == buf + EncodeValues(vs[..i])
    {
      ValuesSnoc(vs, i);
      buf' := PushValue(vs[i], buf');
    }
    assert vs[..|vs|] == vs;
  }

  method WriteRow(row: seq<Value>) returns (bs: seq<Byte>)
    ensures bs == ToBytes(row)
  {
    hide EncodeValues, ToLe;
    bs := [MAGIC];
    bs := bs + ToLe(|row|, 4);
    bs := PushValues(row, bs);
  }

  // ---------------------------------------------------------------- decoding

  datatype Decoded<T> = Ok(value: T, consumed: nat) | Corrupt

  /** How many bytes follow a tag of fixed size. */
  function FixedSize(tag: Byte): (n: Option<nat>) {
    match tag
    case 0 => Some(0)
    case 1 => Some(1)
    case 2 => Some(1)
    case 3 => Some(2)
    case 4 => Some(4)
    case 5 => Some(8)
    case 6 => Some(4)
    case 7 => Some(8)
    case 8 => Some(16)
    case 11 => Some(4)
    case 12 => Some(8)
    case 13 => Some(12)
    case 14 => Some(16)
    case 17 => Some(16)
    case _ => None
  }

  function ReadSigned(bs: seq<Byte>): (i: int)
    ensures FitsSigned(i, |bs|)
  {
    LeBounded(bs);
    ToSigned(FromLe(bs), |bs|)
  }

  function ReadU32(bs: seq<Byte>): (n: U32)
    requires |bs| == 4
  {
    LeBounded(bs);
    Powers();
    FromLe(bs)
  }

  function FixedValue(lib: Library, tag: Byte, bs: seq<Byte>): (r: Option<Value>)
    requires FixedSize(tag) == Some(|bs|)
  {
    Powers();
    match tag
    case 0 => Some(Null)
    case 1 => Some(Boolean(bs[0] != 0))
    case 2 => Some(TinyInt(ReadSigned(bs)))
    case 3 => Some(SmallInt(ReadSigned(bs)))
    case 4 => Some(Integer(ReadSigned(bs)))
    case 5 => Some(BigInt(ReadSigned(bs)))
    case 6 => Some(Float(bs))
    case 7 => Some(Double(bs))
    case 8 => Some(Decimal(lib.decimal(bs)))
    case 11 =>
      var days: I32 := ReadSigned(bs);
      if lib.isDate(days) then Some(Date(days)) else None
    case 12 =>
      var secs, nanos := ReadU32(bs[..4]), ReadU32(bs[4..]);
      if lib.isTime(secs, nanos) then Some(Time(secs, nanos)) else None
    case 13 =>
      var secs: I64 := ReadSigned(bs[..8]);
      var nanos := ReadU32(bs[8..]);
      if lib.isTimestamp(secs, nanos) then Some(Timestamp(secs, nanos)) else None
    case 14 => Some(Uuid(bs))
    case _ => Some(Interval(ReadSigned(bs[..4]), ReadSigned(bs[4..8]), ReadSigned(bs[8..])))
  }

  /** The value of a length-prefixed tag. */
  function CountedValue(lib: Library, tag: Byte, bs: seq<Byte>): (r: Option<Value>) {
    if tag == 9 then if ValidUtf8(bs) then Some(String(bs)) else None
    else if tag == 10 then Some(Bytes(bs))
    else match lib.parseJson(bs)
      case Some(j) => Some(Json(j))
      case None => None
  }

  function DecodeValue(lib: Library, bytes: seq<Byte>): (r: Decoded<Value>)
    ensures r.Ok? ==> 1 <= r.consumed <= |bytes|
    decreases |bytes|, 0
  {
    if bytes == [] then Corrupt
    else if FixedSize(bytes[0]).Some? then DecodeFixed(lib, bytes)
    else if bytes[0] > 16 || |bytes| < 5 then Corrupt
    else
      var n := ReadU32(bytes[1..5]);
      if bytes[0] == 16 then
        match DecodeValues(lib, bytes[5..], n)
        case Ok(vs, c) => Ok(Array(vs), 5 + c)
        case Corrupt => Corrupt
      else if |bytes| < 5 + n then Corrupt
      else match CountedValue(lib, bytes[0], bytes[5..5 + n])
        case Some(v) => Ok(v, 5 + n)
        case None => Corrupt
  }

  function DecodeFixed(lib: Library, bytes: seq<Byte>): (r: Decoded<Value>)
    requires bytes != [] && FixedSize(bytes[0]).Some?
    ensures r.Ok? ==> 1 <= r.consumed <= |bytes|
  {
    var n := FixedSize(bytes[0]).value;
    if |bytes| < 1 + n then Corrupt
    else match FixedValue(lib, bytes[0], bytes[1..1 + n])
      case Some(v) => Ok(v, 1 + n)
      case None => Corrupt
  }

  /** Reads n values one after the other. */
  function DecodeValues(lib: Library, bytes: seq<Byte>, n: nat): (r: Decoded<seq<Value>>)
    ensures r.Ok? ==> r.consumed <= |bytes|
    decreases |bytes|, n + 1
  {
    if n == 0 then Ok([], 0)
    else match DecodeValues(lib, bytes, n - 1)
      case Corrupt => Corrupt
      case Ok(vs, at) =>
        match DecodeValue(lib, bytes[at..])
        case Corrupt => Corrupt
        case Ok(v, c) => Ok(vs + [v], at + c)
  }

  /** A row from its bytes. */
  function FromBytes(lib: Library, bytes: seq<Byte>): (r: Option<seq<Value>>) {
    if |bytes| < 5 || bytes[0] != MAGIC then None
    else match DecodeValues(lib, bytes[5..], ReadU32(bytes[1..5]))
      case Ok(vs, _) => Some(vs)
      case Corrupt => None
  }

  /** Once corrupt, always corrupt. */
  lemma {:induction false} StaysCorrupt(lib: Library, bytes: seq<Byte>, k: nat, n: nat)
    requires k <= n && DecodeValues(lib, bytes, k).Corrupt?
    ensures DecodeValues(lib, bytes, n).Corrupt?
  {
    hide DecodeValue;
    if k < n {
      StaysCorrupt(lib, bytes, k, n - 1);
    }
  }

  /** The loop over columns and array elements, with its moving offset. */
  method ReadValues(lib: Library, bytes: seq<Byte>, n: nat) returns (r: Decoded<seq<Value>>)
    ensures r == DecodeValues(lib, bytes, n)
    decreases |bytes|, n + 1
  {
    hide DecodeValue;
    var values: seq<Value>, offset: nat := [], 0;
    for k := 0 to n
      invariant offset <= |bytes| && DecodeValues(lib, bytes, k) == Ok(values, offset)
    {
      var v := ReadValue(lib, bytes[offset..]);
      if v.Corrupt? {
        StaysCorrupt(lib, bytes, k + 1, n);
        return Corrupt;
      }
      values, offset := values + [v.value], offset + v.consumed;
    }
    r := Ok(values, offset);
  }

  method ReadValue(lib: Library, bytes: seq<Byte>) returns (r: Decoded<Value>)
    ensures r == DecodeValue(lib, bytes)
    decreases |bytes|, 0
  {
    hide DecodeValues, FixedSize, ReadU32, CountedValue, DecodeFixed;
    if bytes == [] {
      return Corrupt;
    }
    if FixedSize(bytes[0]).Some? {
      return DecodeFixed(lib, bytes);
    }
    if bytes[0] > 16 || |bytes| < 5 {
      return Corrupt;
    }
    var n: nat := ReadU32(bytes[1..5]);
    if bytes[0] == 16 {
      var items := ReadValues(lib, bytes[5..], n);
      return if items.Ok? then Ok(Array(items.value), 5 + items.consumed) else Corrupt;
    }
    if |bytes| < 5 + n {
      return Corrupt;
    }
    var v := CountedValue(lib, bytes[0], bytes[5..5 + n]);
    r := if v.Some? then Ok(v.value, 5 + n) else Corrupt;
  }

  method ReadRow(lib: Library, bytes: seq<Byte>) returns (r: Option<seq<Value>>)
    ensures r == FromBytes(lib, bytes)
  {
    hide DecodeValues;
    if |bytes| < 5 || bytes[0] != MAGIC {
      return None;
    }
    var values := ReadValues(lib, bytes[5..], ReadU32(bytes[1..5]));
    r := if values.Ok? then Some(values.value) else None;
  }

  // ---------------------------------------------------------------- round trip

  /** What a row can store: sizes below 2^32, and library values the libraries accept again. */
  ghost predicate Storable(lib: Library, v: Value)
    decreases v
  {
    match v
    case Decimal(d) => lib.decimal(d) == d
    case String(s) => |s| < 0x1_0000_0000
    case Bytes(b) => |b| < 0x1_0000_0000
    case Date(d) => lib.isDate(d)
    case Time(secs, nanos) => lib.isTime(secs, nanos)
    case Timestamp(secs, nanos) => lib.isTimestamp(secs, nanos)
    case Json(j) => lib.parseJson(j) == Some(j)
    case Array(vs) => |vs| < 0x1_0000_0000 && forall i :: 0 <= i < |vs| ==> Storable(lib, vs[i])
    case _ => true
  }

  ghost predicate StorableRow(lib: Library, row: seq<Value>) {
    |row| < 0x1_0000_0000 && forall i :: 0 <= i < |row| ==> Storable(lib, row[i])
  }

  lemma SignedRead(i: int, width: nat)
    requires FitsSigned(i, width)
    ensures ReadSigned(SignedLe(i, width)) == i
  {
    hide ToLe, FromLe, Pow256;
    LeRoundTrip(ToUnsigned(i, width), width);
    SignedRoundTrip(i, width);
  }

  lemma U32Read(n: U32)
    ensures ReadU32(ToLe(n, 4)) == n
  {
    hide ToLe, FromLe;
    Powers();
    LeRoundTrip(n, 4);
  }

  predicate IsFixed(v: Value) {
    !v.String? && !v.Bytes? && !v.Json? && !v.Array?
  }

  lemma FixedRead(lib: Library, v: Value)
    requires IsFixed(v) && Storable(lib, v)
    ensures FixedSize(Tag(v)) == Some(|FixedBytes(v)|)
    ensures FixedValue(lib, Tag(v), FixedBytes(v)) == Some(v)
  {
    hide ReadSigned, ReadU32, SignedLe, ToLe, Pow256;
    Powers();
    var bs := FixedBytes(v);
    match v
    case TinyInt(i) => SignedRead(i, 1);
    case SmallInt(i) => SignedRead(i, 2);
    case Integer(i) => SignedRead(i, 4);
    case BigInt(i) => SignedRead(i, 8);
    case Date(d) => SignedRead(d, 4);
    case Time(secs, nanos) =>
      U32Read(secs); U32Read(nanos);
      assert bs[..4] == ToLe(secs, 4) && bs[4..] == ToLe(nanos, 4);
    case Timestamp(secs, nanos) =>
      SignedRead(secs, 8); U32Read(nanos);
      assert bs[..8] == SignedLe(secs, 8) && bs[8..] == ToLe(nanos, 4);
    case Interval(months, days, micros) =>
      SignedRead(months, 4); SignedRead(days, 4); SignedRead(micros, 8);
      assert bs[..4] == SignedLe(months, 4) && bs[4..8] == SignedLe(days, 4) && bs[8..] == SignedLe(micros, 8);
    case _ =>
  }

  lemma FixedRoundTrip(lib: Library, v: Value, rest: seq<Byte>)
    requires IsFixed(v) && Storable(lib, v)
    ensures DecodeValue(lib, EncodeValue(v) + rest) == Ok(v, |EncodeValue(v)|)
  {
    hide FixedSize, FixedValue, FixedBytes, Tag, Storable;
    FixedRead(lib, v);
    var bytes, n := EncodeValue(v) + rest, |FixedBytes(v)|;
    assert bytes[0] == Tag(v) && bytes[1..1 + n] == FixedBytes(v);
  }

  lemma CountedRoundTrip(lib: Library, v: Value, bs: seq<Byte>, rest: seq<Byte>)
    requires |bs| < 0x1_0000_0000 && EncodeValue(v) == [Tag(v)] + Counted(bs)
    requires Tag(v) in {9, 10, 15} && CountedValue(lib, Tag(v), bs) == Some(v)
    ensures DecodeValue(lib, EncodeValue(v) + rest) == Ok(v, |EncodeValue(v)|)
  {
    hide ReadU32, ToLe, Tag, CountedValue, DecodeFixed, DecodeValues, EncodeValue;
    U32Read(|bs|);
    var bytes := EncodeValue(v) + rest;
    assert bytes[1..5] == ToLe(|bs|, 4);
    assert bytes[5..5 + |bs|] == bs;
  }

  /** Decoding a value from the front of any bytes gives it back and consumes exactly its bytes. */
  lemma {:induction false} ValueRoundTrip(lib: Library, v: Value, rest: seq<Byte>)
    requires Storable(lib, v)
    ensures DecodeValue(lib, EncodeValue(v) + rest) == Ok(v, |EncodeValue(v)|)
    decreases v, 1
  {
    hide DecodeValue, EncodeValues, FixedBytes, ToLe;
    match v
    case String(s) => CountedRoundTrip(lib, v, s, rest);
    case Bytes(b) => CountedRoundTrip(lib, v, b, rest);
    case Json(j) => CountedRoundTrip(lib, v, j, rest);
    case Array(vs) =>
      ValuesRoundTrip(lib, vs, rest);
      ArrayRoundTrip(lib, vs, rest);
    case _ => FixedRoundTrip(lib, v, rest);
  }

  lemma ArrayRoundTrip(lib: Library, vs: seq<Value>, rest: seq<Byte>)
    requires |vs| < 0x1_0000_0000
    requires DecodeValues(lib, EncodeValues(vs) + rest, |vs|) == Ok(vs, |EncodeValues(vs)|)
    ensures DecodeValue(lib, EncodeValue(Array(vs)) + rest) == Ok(Array(vs), |EncodeValue(Array(vs))|)
  {
    hide ReadU32, ToLe, CountedValue, DecodeFixed, DecodeValues, EncodeValues, FixedBytes;
    U32Read(|vs|);
    var bytes := EncodeValue(Array(vs)) + rest;
    assert bytes[1..5] == ToLe(|vs|, 4);
    assert bytes[5..] == EncodeValues(vs) + rest;
  }

  lemma {:induction false} ValuesRoundTrip(lib: Library, vs: seq<Value>, rest: seq<Byte>)
    requires forall i :: 0 <= i < |vs| ==> Storable(lib, vs[i])
    ensures DecodeValues(lib, EncodeValues(vs) + rest, |vs|) == Ok(vs, |EncodeValues(vs)|)
    decreases vs, 0
  {
    hide DecodeValue, EncodeValue, Storable, DecodeValues, EncodeValues;
    if vs == [] {
      NoValues(lib, rest);
      assert EncodeValues(vs) + rest == rest;
    } else {
      var n := |vs| - 1;
      var front, last := vs[..n], vs[n];
      ValuesRoundTrip(lib, front, EncodeValue(last) + rest);
      ValueRoundTrip(lib, last, rest);
      ValuesSnoc(vs, n);
      assert vs[..n + 1] == vs && front + [last] == vs;
      var a, b := EncodeValues(front), EncodeValue(last);
      assert a + b + rest == a + (b + rest) && (a + (b + rest))[|a|..] == b + rest;
      DecodeNext(lib, a + (b + rest), n, front, |a|, last, |b|);
    }
  }

  lemma NoValues(lib: Library, bytes: seq<Byte>)
    ensures EncodeValues([]) == [] && DecodeValues(lib, bytes, 0) == Ok([], 0)
  {
  }

  lemma DecodeNext(lib: Library, bytes: seq<Byte>, n: nat, vs: seq<Value>, at: nat, v: Value, c: nat)
    requires at <= |bytes| && DecodeValues(lib, bytes, n) == Ok(vs, at) && DecodeValue(lib, bytes[at..]) == Ok(v, c)
    ensures DecodeValues(lib, bytes, n + 1) == Ok(vs + [v], at + c)
  {
    hide DecodeValue;
  }

  // Whatever is decoded could have been stored.

  lemma FixedStorable(lib: Library, tag: Byte, bs: seq<Byte>)
    requires Lawful(lib) && FixedSize(tag) == Some(|bs|) && FixedValue(lib, tag, bs).Some?
    ensures Storable(lib, FixedValue(lib, tag, bs).value)
  {
    hide ReadSigned, ReadU32;
  }

  lemma {:induction false} DecodedStorable(lib: Library, bytes: seq<Byte>)
    requires Lawful(lib) && DecodeValue(lib, bytes).Ok?
    ensures Storable(lib, DecodeValue(lib, bytes).value)
    decreases |bytes|, 0
  {
    hide DecodeValues, FixedSize, FixedValue, ReadU32;
    if FixedSize(bytes[0]).Some? {
      FixedStorable(lib, bytes[0], bytes[1..1 + FixedSize(bytes[0]).value]);
    } else if bytes[0] == 16 {
      AllStorable(lib, bytes[5..], ReadU32(bytes[1..5]));
    }
  }

  lemma {:induction false} AllStorable(lib: Library, bytes: seq<Byte>, n: nat)
    requires Lawful(lib) && DecodeValues(lib, bytes, n).Ok?
    ensures var vs := DecodeValues(lib, bytes, n).value; |vs| == n && forall i :: 0 <= i < n ==> Storable(lib, vs[i])
    decreases |bytes|, n + 1
  {
    hide DecodeValue, Storable, Lawful;
    if n > 0 {
      AllStorable(lib, bytes, n - 1);
      DecodedStorable(lib, bytes[DecodeValues(lib, bytes, n - 1).consumed..]);
    }
  }

  /** A row is read back from its bytes exactly when it can be stored, nested arrays included. */
  lemma RowRoundTrip(lib: Library, row: seq<Value>)
    requires Lawful(lib)
    ensures FromBytes(lib, ToBytes(row)) == Some(row) <==> StorableRow(lib, row)
  {
    hide DecodeValues, EncodeValues, ReadU32, ToLe, Storable, Lawful;
    var bytes := ToBytes(row);
    assert bytes[1..5] == ToLe(|row|, 4) && bytes[5..] == EncodeValues(row) + [];
    if StorableRow(lib, row) {
      U32Read(|row|);
      ValuesRoundTrip(lib, row, []);
    } else if FromBytes(lib, bytes).Some? {
      AllStorable(lib, bytes[5..], ReadU32(bytes[1..5]));
    }
  }
}
