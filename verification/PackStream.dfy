/** PackStream version 1: the values a Bolt session exchanges, their encoding and their decoding. */
module PackStream {
  import opened Bytes
  import opened Encoding
  import opened Utf8

  /** The eight bytes of a double, highest first. */
  type Double = s: seq<Byte> | |s| == 8 witness [0, 0, 0, 0, 0, 0, 0, 0]

  /** A string as its UTF-8 bytes. */
  type Text = s: seq<Byte> | ValidUtf8(s) witness []

  datatype PackValue =
    | Null
    | Boolean(b: bool)
    | Integer(i: I64)
    | Float(f: Double)
    | String(s: Text)
    | Bytes(bytes: seq<Byte>)
    | List(items: seq<PackValue>)
    | Map(entries: map<Text, PackValue>)
    | Structure(tag: Byte, fields: seq<PackValue>)

  /**
   * A value whose maps are listed in some order. Encoding goes through a hash map in whatever order
   * its iterator gives, so it is a function of such a listing and not of the value alone.
   */
  datatype Listing =
    | LNull
    | LBoolean(b: bool)
    | LInteger(i: I64)
    | LFloat(f: Double)
    | LString(s: Text)
    | LBytes(bytes: seq<Byte>)
    | LList(items: seq<Listing>)
    | LMap(entries: seq<ListedEntry>)
    | LStructure(tag: Byte, fields: seq<Listing>)

  datatype ListedEntry = ListedEntry(key: Text, value: Listing)

  /** The value a listing lists. */
  function ValueOf(w: Listing): (v: PackValue)
    decreases w
  {
    match w
    case LNull => Null
    case LBoolean(b) => Boolean(b)
    case LInteger(i) => Integer(i)
    case LFloat(f) => Float(f)
    case LString(s) => String(s)
    case LBytes(bs) => Bytes(bs)
    case LList(ws) => List(ValuesOf(ws))
    case LMap(es) => Map(EntriesOf(es))
    case LStructure(tag, ws) => Structure(tag, ValuesOf(ws))
  }

  function ValuesOf(ws: seq<Listing>): (vs: seq<PackValue>)
    ensures |vs| == |ws|
    decreases ws
  {
    if ws == [] then [] else ValuesOf(ws[..|ws| - 1]) + [ValueOf(ws[|ws| - 1])]
  }

  function EntriesOf(es: seq<ListedEntry>): (m: map<Text, PackValue>)
    decreases es
  {
    if es == [] then map[]
    else var last := es[|es| - 1]; EntriesOf(es[..|es| - 1])[last.key := ValueOf(last.value)]
  }

  /** A hash map's iterator gives every key once. */
  ghost predicate OnceEach(w: Listing)
    decreases w
  {
    match w
    case LList(ws) => forall i :: 0 <= i < |ws| ==> OnceEach(ws[i])
    case LMap(es) =>
      && (forall i, j :: 0 <= i < j < |es| ==> es[i].key != es[j].key)
      && (forall i :: 0 <= i < |es| ==> OnceEach(es[i].value))
    case LStructure(_, ws) => forall i :: 0 <= i < |ws| ==> OnceEach(ws[i])
    case _ => true
  }

  // ---------------------------------------------------------------- encoding

  datatype Kind = KString | KList | KMap | KStruct

  /** The marker for sizes up to 15; the size is added to it. */
  function Tiny(kind: Kind): (m: Byte) {
    match kind
    case KString => 0x80
    case KList => 0x90
    case KMap => 0xA0
    case KStruct => 0xB0
  }

  /** The marker before a one-byte size; the next two take two and four bytes. */
  function Sized(kind: Kind): (m: Byte) {
    match kind
    case KString => 0xD0
    case KList => 0xD4
    case KMap => 0xD8
    case KStruct => 0xDC
  }

  /** Marker and size. Sizes too big for the last width are cut to it. */
  function SizeHeader(kind: Kind, n: nat): (h: seq<Byte>) {
    if n <= 15 then [Tiny(kind) + n]
    else if n <= 255 then [Sized(kind), n]
    else if n <= 65535 || kind.KStruct? then [Sized(kind) + 1] + ToBe(n, 2)
    else [Sized(kind) + 2] + ToBe(n, 4)
  }

  function IntegerBytes(i: I64): (bs: seq<Byte>) {
    Powers();
    if -16 <= i <= 127 then [ToUnsigned(i, 1)]
    else if -128 <= i <= 127 then [0xC8, ToUnsigned(i, 1)]
    else if -32768 <= i <= 32767 then [0xC9] + ToBe(ToUnsigned(i, 2), 2)
    else if -2147483648 <= i <= 2147483647 then [0xCA] + ToBe(ToUnsigned(i, 4), 4)
    else [0xCB] + ToBe(ToUnsigned(i, 8), 8)
  }

  function StringBytes(s: Text): (bs: seq<Byte>) {
    SizeHeader(KString, |s|) + s
  }

  function BytesBytes(b: seq<Byte>): (bs: seq<Byte>) {
    if |b| <= 255 then [0xCC, |b|] + b
    else if |b| <= 65535 then [0xCD] + ToBe(|b|, 2) + b
    else [0xCE] + ToBe(|b|, 4) + b
  }

  function Encode(w: Listing): (bs: seq<Byte>)
    decreases w
  {
    match w
    case LNull => [0xC0]
    case LBoolean(b) => if b then [0xC3] else [0xC2]
    case LInteger(i) => IntegerBytes(i)
    case LFloat(f) => [0xC1] + f
    case LString(s) => StringBytes(s)
    case LBytes(b) => BytesBytes(b)
    case LList(ws) => SizeHeader(KList, |ws|) + EncodeAll(ws)
    case LMap(es) => SizeHeader(KMap, |es|) + EncodeEntries(es)
    case LStructure(tag, ws) => SizeHeader(KStruct, |ws|) + [tag] + EncodeAll(ws)
  }

  function EncodeAll(ws: seq<Listing>): (bs: seq<Byte>)
    decreases ws
  {
    if ws == [] then [] else EncodeAll(ws[..|ws| - 1]) + Encode(ws[|ws| - 1])
  }

  function EncodeEntries(es: seq<ListedEntry>): (bs: seq<Byte>)
    decreases es
  {
    if es == [] then []
    else
      var last := es[|es| - 1];
      EncodeEntries(es[..|es| - 1]) + StringBytes(last.key) + Encode(last.value)
  }

  // The encoders as the program runs them, appending to a buffer.

  method PushInteger(i: I64, buf: seq<Byte>) returns (buf': seq<Byte>)
    ensures buf' == buf + IntegerBytes(i)
  {
    hide ToBe, Pow256;
    Powers();
    if -16 <= i <= 127 {
      buf' := buf + [ToUnsigned(i, 1)];
    } else if -128 <= i <= 127 {
      buf' := buf + [0xC8];
      buf' := buf' + [ToUnsigned(i, 1)];
    } else if -32768 <= i <= 32767 {
      buf' := buf + [0xC9];
      buf' := buf' + ToBe(ToUnsigned(i, 2), 2);
    } else if -2147483648 <= i <= 2147483647 {
      buf' := buf + [0xCA];
      buf' := buf' + ToBe(ToUnsigned(i, 4), 4);
    } else {
      buf' := buf + [0xCB];
      buf' := buf' + ToBe(ToUnsigned(i, 8), 8);
    }
  }

  lemma AllSnoc(ws: seq<Listing>, i: nat)
    requires i < |ws|
    ensures EncodeAll(ws[..i + 1]) == EncodeAll(ws[..i]) + Encode(ws[i])
  {
    hide Encode;
    assert ws[..i + 1][..i] == ws[..i];
  }

  lemma EntriesSnoc(es: seq<ListedEntry>, i: nat)
    requires i < |es|
    ensures EncodeEntries(es[..i + 1]) == EncodeEntries(es[..i]) + StringBytes(es[i].key) + Encode(es[i].value)
  {
    hide Encode, StringBytes;
    assert es[..i + 1][..i] == es[..i];
  }

  method PushAll(ws: seq<Listing>, buf: seq<Byte>) returns (buf': seq<Byte>)
    ensures buf' == buf + EncodeAll(ws)
    decreases ws
  {
    hide Encode;
    buf' := buf;
    for i := 0 to |ws|
      invariant buf' == buf + EncodeAll(ws[..i])
    {
      AllSnoc(ws, i);
      buf' := Push(ws[i], buf');
    }
    assert ws[..|ws|] == ws;
  }

  method PushEntries(es: seq<ListedEntry>, buf: seq<Byte>) returns (buf': seq<Byte>)
    ensures buf' == buf + EncodeEntries(es)
    decreases es
  {
    hide Encode, SizeHeader;
    buf' := buf;
    for i := 0 to |es|
      invariant buf' == buf + EncodeEntries(es[..i])
    {
      EntriesSnoc(es, i);
      buf' := buf' + SizeHeader(KString, |es[i].key|);
      buf' := buf' + es[i].key;
      buf' := Push(es[i].value, buf');
    }
    assert es[..|es|] == es;
  }

  /** Appends the encoding of a value to a buffer. */
  method Push(w: Listing, buf: seq<Byte>) returns (buf': seq<Byte>)
    ensures buf' == buf + Encode(w)
    decreases w
  {
    hide SizeHeader, IntegerBytes, EncodeAll, EncodeEntries, ToBe;
    match w
    case LNull => buf' := buf + [0xC0];
    case LBoolean(b) => buf' := buf + if b then [0xC3] else [0xC2];
    case LInteger(i) => buf' := PushInteger(i, buf);
    case LFloat(f) =>
      buf' := buf + [0xC1];
      buf' := buf' + f;
    case LString(s) =>
      buf' := buf + SizeHeader(KString, |s|);
      buf' := buf' + s;
    case LBytes(b) => buf' := buf + BytesBytes(b);
    case LList(ws) =>
      buf' := buf + SizeHeader(KList, |ws|);
      buf' := PushAll(ws, buf');
    case LMap(es) =>
      buf' := buf + SizeHeader(KMap, |es|);
      buf' := PushEntries(es, buf');
    case LStructure(tag, ws) =>
      buf' := buf + SizeHeader(KStruct, |ws|);
      buf' := buf' + [tag];
      buf' := PushAll(ws, buf');
  }

  // ---------------------------------------------------------------- decoding

  datatype DecodeError = EmptyBuffer | Truncated | InvalidUtf8 | KeyNotString | UnknownMarker(marker: Byte)

  datatype Decoded<T> = Ok(value: T, consumed: nat) | Err(error: DecodeError)

  /** What a marker announces: a kind, and how many bytes of size follow (none: the size is in the marker). */
  function Shape(m: Byte): (r: Option<(Kind, nat)>) {
    if 0x80 <= m <= 0x8F then Some((KString, 0))
    else if m == 0xD0 then Some((KString, 1))
    else if m == 0xD1 then Some((KString, 2))
    else if m == 0xD2 then Some((KString, 4))
    else if 0x90 <= m <= 0x9F then Some((KList, 0))
    else if m == 0xD4 then Some((KList, 1))
    else if m == 0xD5 then Some((KList, 2))
    else if m == 0xD6 then Some((KList, 4))
    else if 0xA0 <= m <= 0xAF then Some((KMap, 0))
    else if m == 0xD8 then Some((KMap, 1))
    else if m == 0xD9 then Some((KMap, 2))
    else if m == 0xDA then Some((KMap, 4))
    else if 0xB0 <= m <= 0xBF then Some((KStruct, 0))
    else if m == 0xDC then Some((KStruct, 1))
    else if m == 0xDD then Some((KStruct, 2))
    else None
  }

  /** Integers: how many bytes follow the marker. */
  function IntWidth(m: Byte): (r: Option<nat>) {
    if m == 0xC8 then Some(1)
    else if m == 0xC9 then Some(2)
    else if m == 0xCA then Some(4)
    else if m == 0xCB then Some(8)
    else None
  }

  function ReadSigned(bs: seq<Byte>): (i: I64)
    requires 1 <= |bs| <= 8
  {
    SignedInRange(bs);
    ToSigned(FromBe(bs), |bs|)
  }

  lemma SignedInRange(bs: seq<Byte>)
    requires |bs| <= 8
    ensures -0x8000_0000_0000_0000 <= ToSigned(FromBe(bs), |bs|) < 0x8000_0000_0000_0000
  {
    hide FromBe;
    BeBounded(bs);
    Powers();
    PowersGrow(|bs|, 8);
  }

  /** Values without content of their own. */
  function DecodeScalar(buf: seq<Byte>): (r: Decoded<PackValue>)
    requires buf != []
    ensures r.Ok? ==> 1 <= r.consumed <= |buf|
  {
    var m := buf[0];
    if m == 0xC0 then Ok(Null, 1)
    else if m == 0xC2 then Ok(Boolean(false), 1)
    else if m == 0xC3 then Ok(Boolean(true), 1)
    else if m == 0xC1 then if |buf| < 9 then Err(Truncated) else Ok(Float(buf[1..9]), 9)
    else if m <= 0x7F || m >= 0xF0 then Ok(Integer(ReadSigned([m])), 1)
    else match IntWidth(m)
      case Some(w) => if |buf| < 1 + w then Err(Truncated) else Ok(Integer(ReadSigned(buf[1..1 + w])), 1 + w)
      case None => Err(UnknownMarker(m))
  }

  function DecodeText(buf: seq<Byte>, n: nat): (r: Decoded<PackValue>)
    ensures r.Ok? ==> r.consumed <= |buf|
  {
    if |buf| < n then Err(Truncated)
    else if !ValidUtf8(buf[..n]) then Err(InvalidUtf8)
    else Ok(String(buf[..n]), n)
  }

  /** Reads one value from the front of a buffer. */
  function Decode(buf: seq<Byte>): (r: Decoded<PackValue>)
    ensures r.Ok? ==> 1 <= r.consumed <= |buf|
    decreases |buf|, 0
  {
    if buf == [] then Err(EmptyBuffer)
    else match Shape(buf[0])
      case None => DecodeScalar(buf)
      case Some((kind, w)) =>
        if |buf| < 1 + w then Err(Truncated)
        else
          var n := if w == 0 then buf[0] % 16 else FromBe(buf[1..1 + w]);
          match DecodeContent(kind, buf[1 + w..], n)
          case Err(e) => Err(e)
          case Ok(v, c) => Ok(v, 1 + w + c)
  }

  /** The content announced by a marker and size. */
  function DecodeContent(kind: Kind, buf: seq<Byte>, n: nat): (r: Decoded<PackValue>)
    ensures r.Ok? ==> r.consumed <= |buf|
    decreases |buf|, n + 2
  {
    match kind
    case KString => DecodeText(buf, n)
    case KList =>
      (match DecodeItems(buf, n)
       case Err(e) => Err(e)
       case Ok(vs, c) => Ok(List(vs), c))
    case KMap =>
      (match DecodeEntries(buf, n)
       case Err(e) => Err(e)
       case Ok(m, c) => Ok(Map(m), c))
    case KStruct =>
      if buf == [] then Err(Truncated)
      else match DecodeItems(buf[1..], n)
        case Err(e) => Err(e)
        case Ok(vs, c) => Ok(Structure(buf[0], vs), 1 + c)
  }

  /** Reads n values, one after the other. */
  function DecodeItems(buf: seq<Byte>, n: nat): (r: Decoded<seq<PackValue>>)
    ensures r.Ok? ==> r.consumed <= |buf|
    decreases |buf|, n + 1
  {
    if n == 0 then Ok([], 0)
    else match DecodeItems(buf, n - 1)
      case Err(e) => Err(e)
      case Ok(vs, at) =>
        match Decode(buf[at..])
        case Err(e) => Err(e)
        case Ok(v, c) => Ok(vs + [v], at + c)
  }

  /** Reads one key and its value. */
  function DecodeEntry(buf: seq<Byte>): (r: Decoded<(Text, PackValue)>)
    ensures r.Ok? ==> r.consumed <= |buf|
    decreases |buf|, 1
  {
    match Decode(buf)
    case Err(e) => Err(e)
    case Ok(k, at) =>
      if !k.String? then Err(KeyNotString)
      else match Decode(buf[at..])
        case Err(e) => Err(e)
        case Ok(v, c) => Ok((k.s, v), at + c)
  }

  /** Reads n keys with their values; a later key replaces an earlier one. */
  function DecodeEntries(buf: seq<Byte>, n: nat): (r: Decoded<map<Text, PackValue>>)
    ensures r.Ok? ==> r.consumed <= |buf|
    decreases |buf|, n + 1
  {
    if n == 0 then Ok(map[], 0)
    else match DecodeEntries(buf, n - 1)
      case Err(e) => Err(e)
      case Ok(m, at) =>
        match DecodeEntry(buf[at..])
        case Err(e) => Err(e)
        case Ok((k, v), c) => Ok(m[k := v], at + c)
  }

  // The decoders as the program runs them, with a moving offset.

  method ReadItems(buf: seq<Byte>, n: nat) returns (r: Decoded<seq<PackValue>>)
    ensures r == DecodeItems(buf, n)
    decreases |buf|, n + 1
  {
    hide Decode;
    var items: seq<PackValue>, at: nat := [], 0;
    for k := 0 to n
      invariant DecodeItems(buf, k) == Ok(items, at) && at <= |buf|
    {
      var item := Read(buf[at..]);
      if item.Err? {
        ItemsFail(buf, k + 1, n);
        return Err(item.error);
      }
      items, at := items + [item.value], at + item.consumed;
    }
    r := Ok(items, at);
  }

  /** An error at one item is the error of the whole. */
  lemma {:induction false} ItemsFail(buf: seq<Byte>, k: nat, n: nat)
    requires k <= n && DecodeItems(buf, k).Err?
    ensures DecodeItems(buf, n) == DecodeItems(buf, k)
  {
    hide Decode;
    if k < n {
      ItemsFail(buf, k, n - 1);
    }
  }

  lemma {:induction false} EntriesFail(buf: seq<Byte>, k: nat, n: nat)
    requires k <= n && DecodeEntries(buf, k).Err?
    ensures DecodeEntries(buf, n) == DecodeEntries(buf, k)
  {
    hide DecodeEntry;
    if k < n {
      EntriesFail(buf, k, n - 1);
    }
  }

  method ReadEntries(buf: seq<Byte>, n: nat) returns (r: Decoded<map<Text, PackValue>>)
    ensures r == DecodeEntries(buf, n)
    decreases |buf|, n + 1
  {
    hide Decode;
    var m: map<Text, PackValue>, at: nat := map[], 0;
    for k := 0 to n
      invariant DecodeEntries(buf, k) == Ok(m, at) && at <= |buf|
    {
      ghost var entry := buf[at..];
      var key := Read(buf[at..]);
      if key.Err? {
        EntriesFail(buf, k + 1, n);
        return Err(key.error);
      }
      at := at + key.consumed;
      if !key.value.String? {
        EntriesFail(buf, k + 1, n);
        return Err(KeyNotString);
      }
      assert buf[at..] == entry[key.consumed..];
      var value := Read(buf[at..]);
      if value.Err? {
        EntriesFail(buf, k + 1, n);
        return Err(value.error);
      }
      at := at + value.consumed;
      m := m[key.value.s := value.value];
    }
    r := Ok(m, at);
  }

  /** Reads one value from the front of a buffer. */
  method Read(buf: seq<Byte>) returns (r: Decoded<PackValue>)
    ensures r == Decode(buf)
    decreases |buf|, 0
  {
    hide DecodeItems, DecodeEntries, Shape, FromBe, DecodeScalar;
    if buf == [] {
      return Err(EmptyBuffer);
    }
    var shape := Shape(buf[0]);
    if shape.None? {
      return DecodeScalar(buf);
    }
    var (kind, w) := shape.value;
    if |buf| < 1 + w {
      return Err(Truncated);
    }
    var n := if w == 0 then buf[0] % 16 else FromBe(buf[1..1 + w]);
    var content := buf[1 + w..];
    match kind
    case KString =>
      var text := DecodeText(content, n);
      r := if text.Ok? then Ok(text.value, 1 + w + text.consumed) else text;
    case KList =>
      var items := ReadItems(content, n);
      r := if items.Ok? then Ok(List(items.value), 1 + w + items.consumed) else Err(items.error);
    case KMap =>
      var entries := ReadEntries(content, n);
      r := if entries.Ok? then Ok(Map(entries.value), 1 + w + entries.consumed) else Err(entries.error);
    case KStruct =>
      if content == [] {
        return Err(Truncated);
      }
      var fields := ReadItems(content[1..], n);
      r := if fields.Ok? then Ok(Structure(content[0], fields.value), 1 + w + 1 + fields.consumed) else Err(fields.error);
  }

  // ---------------------------------------------------------------- round trip

  /** What the format can carry: no byte arrays, structures under 2^16 fields, other sizes under 2^32. */
  ghost predicate Representable(v: PackValue)
    decreases v
  {
    match v
    case String(s) => |s| < 0x1_0000_0000
    case Bytes(_) => false
    case List(vs) => |vs| < 0x1_0000_0000 && forall i :: 0 <= i < |vs| ==> Representable(vs[i])
    case Map(m) => |m| < 0x1_0000_0000 && forall k :: k in m ==> |k| < 0x1_0000_0000 && Representable(m[k])
    case Structure(_, vs) => |vs| < 0x1_0000 && forall i :: 0 <= i < |vs| ==> Representable(vs[i])
    case _ => true
  }

  /** The largest size, and one more, that a kind can announce. */
  function Limit(kind: Kind): (n: nat) {
    if kind.KStruct? then 0x1_0000 else 0x1_0000_0000
  }

  /** A size header is recognised, and its size read back, whatever follows it. */
  lemma HeaderRead(kind: Kind, n: nat, rest: seq<Byte>)
    requires n < Limit(kind)
    ensures var h := SizeHeader(kind, n); var buf := h + rest;
            && h != [] && Shape(buf[0]) == Some((kind, |h| - 1)) && buf[|h|..] == rest
            && n == if |h| == 1 then buf[0] % 16 else FromBe(buf[1..|h|])
  {
    hide FromBe, ToBe, Pow256;
    Powers();
    var h := SizeHeader(kind, n);
    var w := |h| - 1;
    assert (h + rest)[1..|h|] == h[1..];
    if w > 0 {
      OneByte(n);
      assert h[1..] == ToBe(n, w);
      BeRoundTrip(n, w);
    }
  }

  lemma OneByte(n: nat)
    ensures n < 256 ==> ToBe(n, 1) == [n]
  {
    assert ToBe(n, 1) == ToBe(n / 256, 0) + [n % 256];
  }

  /** Decoding behind a size header is decoding the content. */
  lemma DecodeSized(kind: Kind, n: nat, rest: seq<Byte>)
    requires n < Limit(kind)
    ensures var h := SizeHeader(kind, n); var c := DecodeContent(kind, rest, n);
            Decode(h + rest) == if c.Ok? then Ok(c.value, |h| + c.consumed) else Err(c.error)
  {
    hide DecodeContent, SizeHeader, Shape, FromBe;
    HeaderRead(kind, n, rest);
  }

  lemma IntegerRoundTrip(i: I64, rest: seq<Byte>)
    ensures Decode(IntegerBytes(i) + rest) == Ok(Integer(i), |IntegerBytes(i)|)
  {
    hide FromBe, ToBe, Pow256;
    Powers();
    var bs := IntegerBytes(i);
    var w := if |bs| == 1 then 1 else |bs| - 1;
    SignedRoundTrip(i, w);
    BeRoundTrip(ToUnsigned(i, w), w);
    OneByte(ToUnsigned(i, w));
    if |bs| > 1 {
      assert (bs + rest)[1..|bs|] == ToBe(ToUnsigned(i, w), w);
    }
  }

  lemma TextRoundTrip(s: Text, rest: seq<Byte>)
    requires |s| < 0x1_0000_0000
    ensures Decode(StringBytes(s) + rest) == Ok(String(s), |StringBytes(s)|)
  {
    hide SizeHeader, Decode, ValidUtf8;
    DecodeSized(KString, |s|, s + rest);
    assert (s + rest)[..|s|] == s;
    assert StringBytes(s) + rest == SizeHeader(KString, |s|) + (s + rest);
  }

  lemma FloatRoundTrip(f: Double, rest: seq<Byte>)
    ensures Decode([0xC1] + f + rest) == Ok(Float(f), 9)
  {
    assert ([0xC1] + f + rest)[1..9] == f;
  }

  /** Decoding a value from the front of any buffer gives it back and consumes exactly its bytes. */
  lemma {:induction false} RoundTrip(w: Listing, rest: seq<Byte>)
    requires OnceEach(w) && Representable(ValueOf(w))
    ensures Decode(Encode(w) + rest) == Ok(ValueOf(w), |Encode(w)|)
    decreases w, 2
  {
    hide Decode, DecodeItems, DecodeEntries, EncodeAll, EncodeEntries, IntegerBytes, StringBytes, ValuesOf, EntriesOf;
    match w
    case LNull => Scalars(rest);
    case LBoolean(b) => Scalars(rest);
    case LInteger(i) => IntegerRoundTrip(i, rest);
    case LFloat(f) => FloatRoundTrip(f, rest);
    case LString(s) => TextRoundTrip(s, rest);
    case LList(ws) =>
      ValuesRepresentable(ws);
      ItemsRoundTrip(ws, rest);
      ListFromItems(ws, rest);
    case LMap(es) =>
      EntriesRepresentable(es);
      EntriesRoundTrip(es, rest);
      MapFromEntries(es, rest);
    case LStructure(tag, ws) =>
      ValuesRepresentable(ws);
      ItemsRoundTrip(ws, rest);
      StructureFromItems(tag, ws, rest);
  }

  lemma ListFromItems(ws: seq<Listing>, rest: seq<Byte>)
    requires |ws| < 0x1_0000_0000 && DecodeItems(EncodeAll(ws) + rest, |ws|) == Ok(ValuesOf(ws), |EncodeAll(ws)|)
    ensures Decode(Encode(LList(ws)) + rest) == Ok(List(ValuesOf(ws)), |Encode(LList(ws))|)
  {
    hide Decode, SizeHeader, DecodeItems, EncodeAll, ValuesOf;
    DecodeSized(KList, |ws|, EncodeAll(ws) + rest);
    assert Encode(LList(ws)) + rest == SizeHeader(KList, |ws|) + (EncodeAll(ws) + rest);
  }

  lemma MapFromEntries(es: seq<ListedEntry>, rest: seq<Byte>)
    requires |es| < 0x1_0000_0000 && DecodeEntries(EncodeEntries(es) + rest, |es|) == Ok(EntriesOf(es), |EncodeEntries(es)|)
    ensures Decode(Encode(LMap(es)) + rest) == Ok(Map(EntriesOf(es)), |Encode(LMap(es))|)
  {
    hide Decode, SizeHeader, DecodeEntries, EncodeEntries, EntriesOf;
    DecodeSized(KMap, |es|, EncodeEntries(es) + rest);
    assert Encode(LMap(es)) + rest == SizeHeader(KMap, |es|) + (EncodeEntries(es) + rest);
  }

  lemma StructureFromItems(tag: Byte, ws: seq<Listing>, rest: seq<Byte>)
    requires |ws| < 0x1_0000 && DecodeItems(EncodeAll(ws) + rest, |ws|) == Ok(ValuesOf(ws), |EncodeAll(ws)|)
    ensures Decode(Encode(LStructure(tag, ws)) + rest) == Ok(Structure(tag, ValuesOf(ws)), |Encode(LStructure(tag, ws))|)
  {
    hide Decode, SizeHeader, DecodeItems, EncodeAll, ValuesOf;
    var content := [tag] + (EncodeAll(ws) + rest);
    DecodeSized(KStruct, |ws|, content);
    assert content[1..] == EncodeAll(ws) + rest;
    assert Encode(LStructure(tag, ws)) + rest == SizeHeader(KStruct, |ws|) + content;
  }

  lemma Scalars(rest: seq<Byte>)
    ensures Decode([0xC0] + rest) == Ok(Null, 1)
    ensures Decode([0xC2] + rest) == Ok(Boolean(false), 1)
    ensures Decode([0xC3] + rest) == Ok(Boolean(true), 1)
  {
  }

  lemma {:induction false} ValuesRepresentable(ws: seq<Listing>)
    requires forall i :: 0 <= i < |ws| ==> Representable(ValuesOf(ws)[i])
    ensures forall w :: w in ws ==> Representable(ValueOf(w))
  {
    hide Representable, ValueOf, ValuesOf;
    ValuesAt(ws);
    forall w | w in ws ensures Representable(ValueOf(w)) {
      var i :| 0 <= i < |ws| && ws[i] == w;
      assert Representable(ValuesOf(ws)[i]);
    }
  }

  lemma {:induction false} ValuesAt(ws: seq<Listing>)
    ensures forall i :: 0 <= i < |ws| ==> ValuesOf(ws)[i] == ValueOf(ws[i])
  {
    hide ValueOf;
    if ws != [] {
      ValuesAt(ws[..|ws| - 1]);
    }
  }

  ghost predicate DistinctKeys(es: seq<ListedEntry>) {
    forall i, j :: 0 <= i < j < |es| ==> es[i].key != es[j].key
  }

  /** Every listed entry is in the map. */
  lemma {:induction false} EntryInMap(es: seq<ListedEntry>, i: nat)
    requires DistinctKeys(es) && i < |es|
    ensures es[i].key in EntriesOf(es) && EntriesOf(es)[es[i].key] == ValueOf(es[i].value)
  {
    hide ValueOf;
    if i < |es| - 1 {
      EntryInMap(es[..|es| - 1], i);
    }
  }

  lemma {:induction false} KeyIsListed(es: seq<ListedEntry>, k: Text)
    requires k in EntriesOf(es)
    ensures exists i :: 0 <= i < |es| && es[i].key == k
  {
    hide ValueOf;
    if es[|es| - 1].key != k {
      KeyIsListed(es[..|es| - 1], k);
    }
  }

  /** A listing without repetition is as long as its map. */
  lemma {:induction false} EntriesCount(es: seq<ListedEntry>)
    requires DistinctKeys(es)
    ensures |EntriesOf(es)| == |es|
  {
    hide ValueOf;
    if es != [] {
      var front, last := es[..|es| - 1], es[|es| - 1];
      EntriesCount(front);
      if last.key in EntriesOf(front) {
        KeyIsListed(front, last.key);
      }
    }
  }

  lemma EntriesRepresentable(es: seq<ListedEntry>)
    requires DistinctKeys(es) && Representable(Map(EntriesOf(es)))
    ensures |es| < 0x1_0000_0000
    ensures forall i :: 0 <= i < |es| ==> |es[i].key| < 0x1_0000_0000 && Representable(ValueOf(es[i].value))
  {
    hide ValueOf, EntriesOf;
    EntriesCount(es);
    forall i | 0 <= i < |es| ensures |es[i].key| < 0x1_0000_0000 && Representable(ValueOf(es[i].value)) {
      EntryInMap(es, i);
    }
  }

  lemma {:induction false} ItemsRoundTrip(ws: seq<Listing>, rest: seq<Byte>)
    requires forall w :: w in ws ==> OnceEach(w) && Representable(ValueOf(w))
    ensures DecodeItems(EncodeAll(ws) + rest, |ws|) == Ok(ValuesOf(ws), |EncodeAll(ws)|)
    decreases ws, 1
  {
    hide Decode, Encode, ValueOf, OnceEach, Representable;
    if ws != [] {
      var front, last := ws[..|ws| - 1], ws[|ws| - 1];
      ItemsRoundTrip(front, Encode(last) + rest);
      RoundTrip(last, rest);
      var buf := EncodeAll(ws) + rest;
      assert buf == EncodeAll(front) + (Encode(last) + rest);
      assert buf[|EncodeAll(front)|..] == Encode(last) + rest;
    }
  }

  lemma EntryRoundTrip(e: ListedEntry, rest: seq<Byte>)
    requires OnceEach(e.value) && |e.key| < 0x1_0000_0000 && Representable(ValueOf(e.value))
    ensures var bs := StringBytes(e.key) + Encode(e.value);
            DecodeEntry(bs + rest) == Ok((e.key, ValueOf(e.value)), |bs|)
    decreases e, 1
  {
    hide Decode, Encode, ValueOf, StringBytes, OnceEach, Representable;
    var key, value := StringBytes(e.key), Encode(e.value);
    var buf := key + value + rest;
    TextRoundTrip(e.key, value + rest);
    RoundTrip(e.value, rest);
    assert buf == key + (value + rest);
    assert buf[|key|..] == value + rest;
  }

  lemma {:induction false} EntriesRoundTrip(es: seq<ListedEntry>, rest: seq<Byte>)
    requires forall i :: 0 <= i < |es| ==> OnceEach(es[i].value)
    requires forall i :: 0 <= i < |es| ==> |es[i].key| < 0x1_0000_0000 && Representable(ValueOf(es[i].value))
    ensures DecodeEntries(EncodeEntries(es) + rest, |es|) == Ok(EntriesOf(es), |EncodeEntries(es)|)
    decreases es, 1
  {
    hide DecodeEntry, Encode, ValueOf, StringBytes, OnceEach, Representable;
    if es != [] {
      var front, last := es[..|es| - 1], es[|es| - 1];
      var bs := StringBytes(last.key) + Encode(last.value);
      EntriesRoundTrip(front, bs + rest);
      EntryRoundTrip(last, rest);
      var buf := EncodeEntries(es) + rest;
      assert buf == EncodeEntries(front) + (bs + rest);
      assert buf[|EncodeEntries(front)|..] == bs + rest;
    }
  }
}
