/** Laws of the PackStream decoder on every buffer, and exactly which values survive a round trip. */
module PackStreamLaws {
  import opened Bytes
  import opened Encoding
  import opened Utf8
  import opened Utf8Chars
  import opened PackStream

  // ---------------------------------------------------------------- what can be decoded

  /** A size announced by a marker is below the limit of its kind. */
  lemma AnnouncedSize(buf: seq<Byte>)
    requires buf != [] && Shape(buf[0]).Some? && |buf| >= 1 + Shape(buf[0]).value.1
    ensures var (kind, w) := Shape(buf[0]).value;
            (if w == 0 then buf[0] % 16 else FromBe(buf[1..1 + w])) < Limit(kind)
  {
    hide FromBe, Pow256;
    Powers();
    BeBounded(buf[1..1 + Shape(buf[0]).value.1]);
  }

  /** No buffer decodes to a value outside the format. */
  lemma {:induction false} DecodedRepresentable(buf: seq<Byte>)
    requires Decode(buf).Ok?
    ensures Representable(Decode(buf).value)
    decreases |buf|, 0
  {
    hide Shape, FromBe, DecodeContent, ReadSigned, IntWidth;
    if Shape(buf[0]).Some? {
      var (kind, w) := Shape(buf[0]).value;
      AnnouncedSize(buf);
      ContentRepresentable(kind, buf[1 + w..], if w == 0 then buf[0] % 16 else FromBe(buf[1..1 + w]));
    }
  }

  lemma {:induction false} ContentRepresentable(kind: Kind, buf: seq<Byte>, n: nat)
    requires n < Limit(kind) && DecodeContent(kind, buf, n).Ok?
    ensures Representable(DecodeContent(kind, buf, n).value)
    decreases |buf|, n + 2
  {
    hide DecodeItems, DecodeEntries;
    match kind
    case KString =>
    case KList => ItemsRepresentable(buf, n);
    case KMap => EntriesRepresentable(buf, n);
    case KStruct => ItemsRepresentable(buf[1..], n);
  }

  lemma {:induction false} ItemsRepresentable(buf: seq<Byte>, n: nat)
    requires DecodeItems(buf, n).Ok?
    ensures var vs := DecodeItems(buf, n).value; |vs| == n && forall i :: 0 <= i < n ==> Representable(vs[i])
    decreases |buf|, n + 1
  {
    hide Decode, Representable;
    if n > 0 {
      ItemsRepresentable(buf, n - 1);
      DecodedRepresentable(buf[DecodeItems(buf, n - 1).consumed..]);
    }
  }

  lemma EntryRepresentable(buf: seq<Byte>)
    requires DecodeEntry(buf).Ok?
    ensures var (k, v) := DecodeEntry(buf).value; |k| < 0x1_0000_0000 && Representable(v)
    decreases |buf|, 1
  {
    hide Decode;
    DecodedRepresentable(buf);
    DecodedRepresentable(buf[Decode(buf).consumed..]);
  }

  lemma {:induction false} EntriesRepresentable(buf: seq<Byte>, n: nat)
    requires DecodeEntries(buf, n).Ok?
    ensures var m := DecodeEntries(buf, n).value;
            |m| <= n && forall k :: k in m ==> |k| < 0x1_0000_0000 && Representable(m[k])
    decreases |buf|, n + 1
  {
    hide DecodeEntry, Representable;
    if n > 0 {
      EntriesRepresentable(buf, n - 1);
      EntryRepresentable(buf[DecodeEntries(buf, n - 1).consumed..]);
    }
  }

  /**
   * Exactly which values survive: the decoder returns a value that was encoded if and only if it has
   * no byte array and no size beyond the format's limits.
   */
  lemma RoundTripExactly(w: Listing, rest: seq<Byte>)
    requires OnceEach(w)
    ensures Decode(Encode(w) + rest) == Ok(ValueOf(w), |Encode(w)|) <==> Representable(ValueOf(w))
  {
    hide Decode, Encode, ValueOf, Representable, OnceEach;
    if Representable(ValueOf(w)) {
      RoundTrip(w, rest);
    } else if Decode(Encode(w) + rest).Ok? {
      DecodedRepresentable(Encode(w) + rest);
    }
  }

  /**
   * Which strings are read: behind a string header of its size, a byte string is decoded if and only
   * if it is the encoding of some sequence of Unicode scalar values, and as itself.
   */
  lemma StringsExactly(s: seq<Byte>, rest: seq<Byte>)
    requires |s| < 0x1_0000_0000
    ensures IsText(s) <==> Decode(SizeHeader(KString, |s|) + s + rest).Ok?
    ensures IsText(s) ==> ValidUtf8(s) && Decode(SizeHeader(KString, |s|) + s + rest) == Ok(String(s), |SizeHeader(KString, |s|)| + |s|)
  {
    hide SizeHeader, Decode, ValidUtf8, IsText;
    ValidExactly(s);
    DecodeSized(KString, |s|, s + rest);
    assert (s + rest)[..|s|] == s;
    assert SizeHeader(KString, |s|) + s + rest == SizeHeader(KString, |s|) + (s + rest);
  }

  /** The order in which a map's entries are written does not matter to the reader. */
  lemma OrderIrrelevant(w: Listing, u: Listing, rest: seq<Byte>, more: seq<Byte>)
    requires OnceEach(w) && OnceEach(u) && ValueOf(w) == ValueOf(u) && Representable(ValueOf(w))
    ensures Decode(Encode(w) + rest).Ok? && Decode(Encode(u) + more).Ok?
    ensures Decode(Encode(w) + rest).value == Decode(Encode(u) + more).value
  {
    hide Decode, Encode, ValueOf, Representable, OnceEach;
    RoundTrip(w, rest);
    RoundTrip(u, more);
  }

  lemma NoByteArrayMarker(buf: seq<Byte>)
    requires buf != [] && 0xCC <= buf[0] <= 0xCE
    ensures Decode(buf) == Err(UnknownMarker(buf[0]))
  {
  }

  /** A byte array is written but never read back. */
  lemma BytesRejected(b: seq<Byte>, rest: seq<Byte>)
    ensures Decode(Encode(LBytes(b)) + rest).Err?
  {
    hide ToBe, Decode;
    var buf := Encode(LBytes(b)) + rest;
    assert 0xCC <= buf[0] <= 0xCE;
    NoByteArrayMarker(buf);
  }

  // ---------------------------------------------------------------- bytes beyond those consumed

  lemma Reslice(buf: seq<Byte>, t: seq<Byte>, i: nat, j: nat)
    requires i <= j <= |buf|
    ensures (buf + t)[i..j] == buf[i..j] && (buf + t)[i..] == buf[i..] + t
  {
  }

  lemma ScalarStable(buf: seq<Byte>, t: seq<Byte>)
    requires buf != [] && DecodeScalar(buf).Ok?
    ensures DecodeScalar(buf + t) == DecodeScalar(buf)
  {
    hide ReadSigned;
    if buf[0] == 0xC1 {
      Reslice(buf, t, 1, 9);
    } else if IntWidth(buf[0]).Some? {
      Reslice(buf, t, 1, 1 + IntWidth(buf[0]).value);
    }
  }

  /** A decoder that succeeds has seen all it needs: more bytes behind them change nothing. */
  lemma {:induction false} DecodeStable(buf: seq<Byte>, t: seq<Byte>)
    requires Decode(buf).Ok?
    ensures Decode(buf + t) == Decode(buf)
    decreases |buf|, 0
  {
    hide Shape, FromBe, DecodeContent, DecodeScalar;
    if Shape(buf[0]).Some? {
      var (kind, w) := Shape(buf[0]).value;
      Reslice(buf, t, 1, 1 + w);
      Reslice(buf, t, 1 + w, |buf|);
      ContentStable(kind, buf[1 + w..], if w == 0 then buf[0] % 16 else FromBe(buf[1..1 + w]), t);
    } else {
      ScalarStable(buf, t);
    }
  }

  lemma {:induction false} ContentStable(kind: Kind, buf: seq<Byte>, n: nat, t: seq<Byte>)
    requires DecodeContent(kind, buf, n).Ok?
    ensures DecodeContent(kind, buf + t, n) == DecodeContent(kind, buf, n)
    decreases |buf|, n + 2
  {
    hide DecodeItems, DecodeEntries, ValidUtf8;
    match kind
    case KString => Reslice(buf, t, 0, n);
    case KList => ItemsStable(buf, n, t);
    case KMap => EntriesStable(buf, n, t);
    case KStruct =>
      ItemsStable(buf[1..], n, t);
      Reslice(buf, t, 1, 1);
  }

  lemma {:induction false} ItemsStable(buf: seq<Byte>, n: nat, t: seq<Byte>)
    requires DecodeItems(buf, n).Ok?
    ensures DecodeItems(buf + t, n) == DecodeItems(buf, n)
    decreases |buf|, n + 1
  {
    hide Decode;
    if n > 0 {
      ItemsStable(buf, n - 1, t);
      var at := DecodeItems(buf, n - 1).consumed;
      Reslice(buf, t, at, at);
      DecodeStable(buf[at..], t);
    }
  }

  lemma EntryStable(buf: seq<Byte>, t: seq<Byte>)
    requires DecodeEntry(buf).Ok?
    ensures DecodeEntry(buf + t) == DecodeEntry(buf)
    decreases |buf|, 1
  {
    hide Decode;
    DecodeStable(buf, t);
    var at := Decode(buf).consumed;
    Reslice(buf, t, at, at);
    DecodeStable(buf[at..], t);
  }

  lemma {:induction false} EntriesStable(buf: seq<Byte>, n: nat, t: seq<Byte>)
    requires DecodeEntries(buf, n).Ok?
    ensures DecodeEntries(buf + t, n) == DecodeEntries(buf, n)
    decreases |buf|, n + 1
  {
    hide DecodeEntry;
    if n > 0 {
      EntriesStable(buf, n - 1, t);
      var at := DecodeEntries(buf, n - 1).consumed;
      Reslice(buf, t, at, at);
      EntryStable(buf[at..], t);
    }
  }

  /** A value cut short is refused, never mistaken for another value. */
  lemma CutShortRefused(w: Listing, k: nat)
    requires OnceEach(w) && Representable(ValueOf(w)) && k < |Encode(w)|
    ensures Decode(Encode(w)[..k]).Err?
  {
    hide Decode, Encode, ValueOf, Representable, OnceEach;
    var bs := Encode(w);
    if Decode(bs[..k]).Ok? {
      DecodeStable(bs[..k], bs[k..]);
      assert bs[..k] + bs[k..] == bs + [];
      RoundTrip(w, []);
    }
  }

  // ---------------------------------------------------------------- every value has a listing

  /** Any value can be encoded: its maps can be listed with every key once. */
  lemma {:induction false} Listable(v: PackValue) returns (w: Listing)
    ensures OnceEach(w) && ValueOf(w) == v
    decreases v, 0
  {
    match v
    case Null => w := LNull;
    case Boolean(b) => w := LBoolean(b);
    case Integer(i) => w := LInteger(i);
    case Float(f) => w := LFloat(f);
    case String(s) => w := LString(s);
    case Bytes(b) => w := LBytes(b);
    case List(vs) =>
      var ws := ListableAll(vs);
      w := LList(ws);
    case Map(m) =>
      var es := ListableMap(v, m.Keys);
      w := LMap(es);
    case Structure(tag, vs) =>
      var ws := ListableAll(vs);
      w := LStructure(tag, ws);
  }

  lemma {:induction false} ListableAll(vs: seq<PackValue>) returns (ws: seq<Listing>)
    ensures ValuesOf(ws) == vs && forall i :: 0 <= i < |ws| ==> OnceEach(ws[i])
    decreases vs, 0
  {
    hide OnceEach, ValueOf;
    ws := [];
    if vs != [] {
      var n := |vs| - 1;
      var front := ListableAll(vs[..n]);
      var last := Listable(vs[n]);
      ws := front + [last];
      assert ws[..n] == front;
    }
  }

  /** Lists the part of a map over some of its keys. */
  lemma {:induction false} ListableMap(v: PackValue, ks: set<Text>) returns (es: seq<ListedEntry>)
    requires v.Map? && ks <= v.entries.Keys
    ensures DistinctKeys(es) && (forall i :: 0 <= i < |es| ==> OnceEach(es[i].value))
    ensures EntriesOf(es) == map k | k in ks :: v.entries[k]
    decreases v, 0, ks
  {
    hide OnceEach, ValueOf;
    es := [];
    if ks != {} {
      var k :| k in ks;
      var front := ListableMap(v, ks - {k});
      var value := Listable(v.entries[k]);
      es := front + [ListedEntry(k, value)];
      forall i | 0 <= i < |front| ensures front[i].key != k {
        EntryInMap(front, i);
      }
      EntriesSnoc(front, ListedEntry(k, value));
      MapGrows(v.entries, ks, k);
    } else {
      assert EntriesOf([]) == map[];
    }
  }

  lemma EntriesSnoc(front: seq<ListedEntry>, e: ListedEntry)
    ensures EntriesOf(front + [e]) == EntriesOf(front)[e.key := ValueOf(e.value)]
  {
    hide ValueOf;
    assert (front + [e])[..|front|] == front;
  }

  lemma MapGrows(m: map<Text, PackValue>, ks: set<Text>, k: Text)
    requires ks <= m.Keys && k in ks
    ensures (map x | x in ks :: m[x]) == (map x | x in ks - {k} :: m[x])[k := m[k]]
  {
  }
}
