/** Reading one numeric column of a stored row by skipping over the columns before it. */
module RowScan {
  import opened Bytes
  import opened Encoding
  import opened RowCodec

  /** What the scan makes of the value at the front of some bytes: a number, and a size to skip. */
  datatype Field = Field(number: I64, size: nat) | Stop

  function ReadI64(bs: seq<Byte>): (i: I64)
    requires |bs| <= 8
  {
    SignedInRange(bs);
    ReadSigned(bs)
  }

  lemma SignedInRange(bs: seq<Byte>)
    requires |bs| <= 8
    ensures -0x8000_0000_0000_0000 <= ReadSigned(bs) < 0x8000_0000_0000_0000
  {
    hide ReadSigned;
    Powers();
    PowersGrow(|bs|, 8);
  }

  function FieldAt(lib: Library, bytes: seq<Byte>): (f: Field)
    requires bytes != []
  {
    match bytes[0]
    case 0 => Field(0, 1)
    case 1 => if |bytes| < 2 then Stop else Field(if bytes[1] != 0 then 1 else 0, 2)
    case 2 => if |bytes| < 2 then Stop else Field(ReadI64(bytes[1..2]), 2)
    case 3 => if |bytes| < 3 then Stop else Field(ReadI64(bytes[1..3]), 3)
    case 4 => if |bytes| < 5 then Stop else Field(ReadI64(bytes[1..5]), 5)
    case 5 => if |bytes| < 9 then Stop else Field(ReadI64(bytes[1..9]), 9)
    case 6 => if |bytes| < 5 then Stop else Field(lib.truncate32(bytes[1..5]), 5)
    case 7 => if |bytes| < 9 then Stop else Field(lib.truncate64(bytes[1..9]), 9)
    case 8 => Field(0, 17)
    case 9 => CountedField(bytes)
    case 10 => CountedField(bytes)
    case 11 => Field(0, 5)
    case 12 => Field(0, 9)
    case 13 => Field(0, 13)
    case 14 => CountedField(bytes)
    case 15 => CountedField(bytes)
    case _ => Stop
  }

  /** Strings, byte arrays, JSON, and also identifiers: skipped by a length prefix. */
  function CountedField(bytes: seq<Byte>): (f: Field) {
    if |bytes| < 5 then Stop
    else var n: nat := ReadU32(bytes[1..5]); Field(0, 5 + n)
  }

  /** The offset after skipping k columns, if the scan gets that far. */
  function SkipTo(lib: Library, bytes: seq<Byte>, k: nat): (offset: Option<nat>) {
    if k == 0 then Some(5)
    else match SkipTo(lib, bytes, k - 1)
      case None => None
      case Some(at) =>
        if at >= |bytes| then None
        else match FieldAt(lib, bytes[at..])
          case Stop => None
          case Field(_, size) => Some(at + size)
  }

  function ExtractColumn(lib: Library, bytes: seq<Byte>, col: nat): (r: Option<I64>) {
    if |bytes| < 5 || bytes[0] != MAGIC || col >= ReadU32(bytes[1..5]) then None
    else match SkipTo(lib, bytes, col)
      case None => None
      case Some(at) => ColumnAt(lib, bytes, at)
  }

  function ColumnAt(lib: Library, bytes: seq<Byte>, at: nat): (r: Option<I64>) {
    if at >= |bytes| then None
    else match FieldAt(lib, bytes[at..])
      case Stop => None
      case Field(number, _) => if bytes[at] == 0 then None else Some(number)
  }

  lemma {:induction false} SkipStops(lib: Library, bytes: seq<Byte>, k: nat, n: nat)
    requires k <= n && SkipTo(lib, bytes, k).None?
    ensures SkipTo(lib, bytes, n).None?
  {
    hide FieldAt;
    if k < n {
      SkipStops(lib, bytes, k, n - 1);
    }
  }

  /** The scan as the program runs it. */
  method ScanColumn(lib: Library, bytes: seq<Byte>, target: nat) returns (r: Option<I64>)
    ensures r == ExtractColumn(lib, bytes, target)
  {
    hide FieldAt, ReadU32;
    if |bytes| < 5 || bytes[0] != MAGIC {
      return None;
    }
    var count := ReadU32(bytes[1..5]);
    if target >= count {
      return None;
    }
    var offset: nat := 5;
    for col := 0 to target + 1
      invariant col <= target ==> SkipTo(lib, bytes, col) == Some(offset)
      invariant col <= target
    {
      if offset >= |bytes| {
        Unreached(lib, bytes, col, target);
        return None;
      }
      var tag, field := bytes[offset], FieldAt(lib, bytes[offset..]);
      if field.Stop? {
        Unreached(lib, bytes, col, target);
        return None;
      }
      if col == target {
        return if tag == 0 then None else Some(field.number);
      }
      offset := offset + field.size;
    }
    r := None;
  }

  /** A scan that stops at or before its target finds nothing. */
  lemma Unreached(lib: Library, bytes: seq<Byte>, k: nat, col: nat)
    requires k <= col && |bytes| >= 5 && SkipTo(lib, bytes, k).Some?
    requires var at := SkipTo(lib, bytes, k).value; at >= |bytes| || FieldAt(lib, bytes[at..]).Stop?
    ensures ExtractColumn(lib, bytes, col).None?
  {
    hide FieldAt, ReadU32;
    if k < col {
      SkipStops(lib, bytes, k + 1, col);
    }
  }

  // ---------------------------------------------------------------- agreement with decoding

  /** The number a decoded value stands for: none for null, arrays and intervals, 0 for other non-numbers. */
  function NumberOf(lib: Library, v: Value): (r: Option<I64>) {
    match v
    case Null => None
    case Boolean(b) => Some(if b then 1 else 0)
    case TinyInt(i) => Some(i)
    case SmallInt(i) => Some(i)
    case Integer(i) => Some(i)
    case BigInt(i) => Some(i)
    case Float(f) => Some(lib.truncate32(f))
    case Double(f) => Some(lib.truncate64(f))
    case Array(_) => None
    case Interval(_, _, _) => None
    case _ => Some(0)
  }

  /**
   * Values the scan skips correctly: not arrays or intervals, and identifiers only when their first
   * four bytes happen to read as 12.
   */
  predicate Skippable(v: Value) {
    !v.Array? && !v.Interval? && (v.Uuid? ==> ReadU32(v.uuid[..4]) == 12)
  }

  lemma FixedField(lib: Library, v: Value, rest: seq<Byte>)
    requires IsFixed(v) && Storable(lib, v) && !v.Interval? && !v.Uuid?
    ensures FieldAt(lib, EncodeValue(v) + rest) == Field(if v.Null? then 0 else NumberOf(lib, v).value, |EncodeValue(v)|)
  {
    hide ReadSigned, SignedLe, ToLe, Pow256;
    Powers();
    var n := |FixedBytes(v)|;
    var bytes := EncodeValue(v) + rest;
    assert bytes[1..1 + n] == FixedBytes(v);
    match v
    case TinyInt(i) => SignedRead(i, 1);
    case SmallInt(i) => SignedRead(i, 2);
    case Integer(i) => SignedRead(i, 4);
    case BigInt(i) => SignedRead(i, 8);
    case _ =>
  }

  lemma CountedSkip(v: Value, bs: seq<Byte>, rest: seq<Byte>)
    requires |bs| < 0x1_0000_0000 && EncodeValue(v) == [Tag(v)] + Counted(bs)
    ensures CountedField(EncodeValue(v) + rest) == Field(0, |EncodeValue(v)|)
  {
    hide ReadU32, ToLe, EncodeValue;
    U32Read(|bs|);
    assert (EncodeValue(v) + rest)[1..5] == ToLe(|bs|, 4);
  }

  /** At the start of a stored value the scan finds its number and, if skippable, its size. */
  lemma ValueField(lib: Library, v: Value, rest: seq<Byte>)
    requires Storable(lib, v)
    ensures var f := FieldAt(lib, EncodeValue(v) + rest);
            && (v.Array? || v.Interval? <==> f.Stop?)
            && (f.Field? && !v.Null? ==> NumberOf(lib, v) == Some(f.number))
            && (Skippable(v) <==> f.Field? && f.size == |EncodeValue(v)|)
  {
    hide ToLe, EncodeValues, ReadI64, SignedLe, ReadU32;
    match v
    case String(s) => CountedSkip(v, s, rest);
    case Bytes(b) => CountedSkip(v, b, rest);
    case Json(j) => CountedSkip(v, j, rest);
    case Array(_) =>
    case Interval(_, _, _) =>
    case Uuid(u) => UuidField(lib, u, rest);
    case _ => FixedField(lib, v, rest);
  }

  lemma UuidField(lib: Library, u: Word16, rest: seq<Byte>)
    ensures FieldAt(lib, EncodeValue(Uuid(u)) + rest) == Field(0, 5 + ReadU32(u[..4]) as nat)
  {
    hide ReadU32;
    assert (EncodeValue(Uuid(u)) + rest)[1..5] == u[..4];
  }

  lemma {:induction false} SkipsExactly(lib: Library, row: seq<Value>, k: nat)
    requires StorableRow(lib, row) && k <= |row| && forall i :: 0 <= i < k ==> Skippable(row[i])
    ensures SkipTo(lib, ToBytes(row), k) == Some(5 + |EncodeValues(row[..k])|)
  {
    hide Storable, Skippable, FieldAt, ToBytes, EncodeValue;
    if k > 0 {
      SkipsExactly(lib, row, k - 1);
      var rest := RowAt(row, k - 1);
      ValueField(lib, row[k - 1], rest);
      ValuesSnoc(row, k - 1);
    }
  }

  lemma {:induction false} ValuesSplit(row: seq<Value>, k: nat, n: nat)
    requires k <= n <= |row|
    ensures |EncodeValues(row[..k])| <= |EncodeValues(row[..n])|
    ensures EncodeValues(row[..n])[..|EncodeValues(row[..k])|] == EncodeValues(row[..k])
  {
    hide EncodeValue;
    if k < n {
      ValuesSplit(row, k, n - 1);
      ValuesSnoc(row, n - 1);
    }
  }

  /** Where column k starts in the bytes of a row. */
  lemma RowAt(row: seq<Value>, k: nat) returns (rest: seq<Byte>)
    requires k < |row|
    ensures var at := 5 + |EncodeValues(row[..k])|;
            at < |ToBytes(row)| && ToBytes(row)[at..] == EncodeValue(row[k]) + rest
  {
    hide EncodeValue, EncodeValues, ToLe;
    var before, upto, all := EncodeValues(row[..k]), EncodeValues(row[..k + 1]), EncodeValues(row);
    ValuesSnoc(row, k);
    ValuesSplit(row, k + 1, |row|);
    assert row[..|row|] == row;
    rest := all[|upto|..];
    assert all == before + EncodeValue(row[k]) + rest;
    assert ToBytes(row)[5 + |before|..] == EncodeValue(row[k]) + rest;
  }

  /**
   * Behind skippable columns the scan returns what decoding the row and looking at the column gives:
   * the integer itself for integer columns, none for null.
   */
  lemma ExtractAgrees(lib: Library, row: seq<Value>, col: nat)
    requires Lawful(lib) && StorableRow(lib, row) && forall i :: 0 <= i < col && i < |row| ==> Skippable(row[i])
    ensures FromBytes(lib, ToBytes(row)) == Some(row)
    ensures ExtractColumn(lib, ToBytes(row), col) == if col < |row| then NumberOf(lib, row[col]) else None
  {
    hide Lawful, Storable, Skippable, FieldAt, EncodeValue, EncodeValues, FromBytes, ReadU32, SkipTo;
    RowRoundTrip(lib, row);
    CountRead(row);
    if col < |row| {
      SkipsExactly(lib, row, col);
      var rest := RowAt(row, col);
      ValueField(lib, row[col], rest);
      TagZero(row[col]);
    }
  }

  lemma CountRead(row: seq<Value>)
    requires |row| < 0x1_0000_0000
    ensures |ToBytes(row)| >= 5 && ToBytes(row)[0] == MAGIC && ReadU32(ToBytes(row)[1..5]) == |row|
  {
    hide ReadU32, ToLe, EncodeValues;
    U32Read(|row|);
    assert ToBytes(row)[1..5] == ToLe(|row|, 4);
  }

  lemma TagZero(v: Value)
    ensures EncodeValue(v)[0] == 0 <==> v.Null?
  {
    hide EncodeValue;
  }

  /** An array or interval before the target hides it. */
  lemma BlockedByArray(lib: Library, row: seq<Value>, k: nat, col: nat)
    requires Lawful(lib) && StorableRow(lib, row) && k < |row| && k < col
    requires (forall i :: 0 <= i < k ==> Skippable(row[i])) && (row[k].Array? || row[k].Interval?)
    ensures ExtractColumn(lib, ToBytes(row), col) == None
  {
    hide Lawful, Storable, Skippable, FieldAt, EncodeValue, EncodeValues, ReadU32, SkipTo, ToBytes;
    CountRead(row);
    SkipsExactly(lib, row, k);
    var rest := RowAt(row, k);
    ValueField(lib, row[k], rest);
    Unreached(lib, ToBytes(row), k, col);
  }

  /**
   * Any identifier that is not skippable throws the scan off: it goes on 5 bytes, and as many more as
   * the identifier's first four bytes say, behind its start, which is not where the next column is.
   */
  lemma MisledByUuid(lib: Library, row: seq<Value>, k: nat)
    requires StorableRow(lib, row) && k < |row| && forall i :: 0 <= i < k ==> Skippable(row[i])
    requires row[k].Uuid? && !Skippable(row[k])
    ensures SkipTo(lib, ToBytes(row), k + 1) == Some(5 + |EncodeValues(row[..k])| + 5 + ReadU32(row[k].uuid[..4]) as nat)
    ensures SkipTo(lib, ToBytes(row), k + 1) != Some(5 + |EncodeValues(row[..k + 1])|)
  {
    hide Storable, FieldAt, EncodeValue, EncodeValues, ReadU32, ToBytes;
    SkipsExactly(lib, row, k);
    var rest := RowAt(row, k);
    UuidField(lib, row[k].uuid, rest);
    UuidLength(row[k].uuid);
    ValuesSnoc(row, k);
  }

  lemma UuidLength(u: Word16)
    ensures |EncodeValue(Uuid(u))| == 17
  {
  }

  /** Behind an identifier that starts with four zeros the scan goes on at its fifth byte. */
  lemma InsideUuid(lib: Library, u: Word16, v: Value) returns (rest: seq<Byte>)
    requires StorableRow(lib, [Uuid(u), v]) && u[..4] == [0, 0, 0, 0]
    ensures var bytes := ToBytes([Uuid(u), v]);
            && SkipTo(lib, bytes, 1) == Some(10) && |bytes| > 10 && bytes[10..] == u[4..] + rest
            && ExtractColumn(lib, bytes, 1) == ColumnAt(lib, bytes, 10)
  {
    hide ReadU32, ToLe, FixedBytes, EncodeValues, FieldAt, ToBytes, Storable, ColumnAt;
    var row := [Uuid(u), v];
    var bytes := ToBytes(row);
    CountRead(row);
    rest := RowAt(row, 0);
    NoValues(row);
    UuidBytes(u);
    UuidField(lib, u, rest);
    ZeroRead();
    assert SkipTo(lib, bytes, 0) == Some(5);
    assert SkipTo(lib, bytes, 1) == Some(10);
    assert bytes[10..] == bytes[5..][5..] == ([14] + u + rest)[5..] == u[4..] + rest;
  }

  lemma UuidBytes(u: Word16)
    ensures EncodeValue(Uuid(u)) == [14] + u
  {
  }

  /** An identifier of zeros before the target: the integer behind it is not found. */
  lemma ThrownOffByUuid(lib: Library, i: I32)
    ensures var row := [Uuid([0, 0, 0, 0, 0, 0, 0, 0, 0, 0, 0, 0, 0, 0, 0, 0]), Integer(i)];
            ExtractColumn(lib, ToBytes(row), 1) == None
  {
    hide SkipTo, ToBytes, ExtractColumn;
    var u: Word16 := [0, 0, 0, 0, 0, 0, 0, 0, 0, 0, 0, 0, 0, 0, 0, 0];
    var rest := InsideUuid(lib, u, Integer(i));
    var bytes := ToBytes([Uuid(u), Integer(i)]);
    assert u[4..][0] == 0 && bytes[10] == bytes[10..][0] == 0;
  }

  /**
   * No condition on the earlier columns alone is exact, though: behind an identifier that is not
   * skippable the scan may still come upon the right integer inside it.
   */
  lemma RightByAccident(lib: Library)
    ensures var row := [Uuid([0, 0, 0, 0, 2, 7, 0, 0, 0, 0, 0, 0, 0, 0, 0, 0]), Integer(7)];
            !Skippable(row[0]) && ExtractColumn(lib, ToBytes(row), 1) == Some(7) == NumberOf(lib, row[1])
  {
    hide SkipTo, ToBytes, ExtractColumn, ReadU32, ColumnAt;
    var u: Word16 := [0, 0, 0, 0, 2, 7, 0, 0, 0, 0, 0, 0, 0, 0, 0, 0];
    assert u[..4] == [0, 0, 0, 0];
    ZeroRead();
    var rest := InsideUuid(lib, u, Integer(7));
    var bytes := ToBytes([Uuid(u), Integer(7)]);
    assert u[4..][0] == 2 && u[4..][1] == 7;
    assert bytes[10] == bytes[10..][0] == 2 && bytes[10..][1] == 7;
    SevenColumn(lib, bytes, 10);
  }

  lemma SevenColumn(lib: Library, bytes: seq<Byte>, at: nat)
    requires at + 1 < |bytes| && bytes[at] == 2 && bytes[at..][1] == 7
    ensures ColumnAt(lib, bytes, at) == Some(7)
  {
    hide ReadI64, ReadU32;
    SevenRead(bytes[at..]);
  }

  lemma NoValues(row: seq<Value>)
    ensures EncodeValues(row[..0]) == []
  {
  }

  lemma SevenRead(bytes: seq<Byte>)
    requires |bytes| >= 2 && bytes[1] == 7
    ensures ReadI64(bytes[1..2]) == 7
  {
    assert bytes[1..2] == [7];
    assert [7][1..] == [];
    assert FromLe([7]) == 7;
    Powers();
  }

  lemma ZeroRead()
    ensures ReadU32([0, 0, 0, 0]) == 0
  {
    var z: seq<Byte> := [0, 0, 0, 0];
    assert z[1..] == [0, 0, 0] && [0, 0, 0][1..] == [0, 0] && [0, 0][1..] == [0];
    assert FromLe([0]) == 0 + 256 * FromLe([0][1..]);
    assert FromLe([0, 0]) == 0 && FromLe([0, 0, 0]) == 0;
  }
}
