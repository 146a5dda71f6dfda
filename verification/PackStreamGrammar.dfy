/**
 * Which bytes stand for which value in PackStream, said without an encoder or a decoder: every
 * width a size or an integer may be written in counts. The decoder reads exactly these.
 */
module PackStreamGrammar {
  import opened Bytes
  import opened Encoding
  import opened Utf8
  import opened PackStream

  // ---------------------------------------------------------------- the grammar

  /** The markers of a kind: its first tiny one, and those before sizes of one, two and four bytes. */
  function Markers(kind: Kind): (Byte, Byte, Byte, Byte) {
    match kind
    case KString => (0x80, 0xD0, 0xD1, 0xD2)
    case KList => (0x90, 0xD4, 0xD5, 0xD6)
    case KMap => (0xA0, 0xD8, 0xD9, 0xDA)
    case KStruct => (0xB0, 0xDC, 0xDD, 0)
  }

  /** The bytes announce a content of n pieces. */
  ghost predicate Announces(h: seq<Byte>, kind: Kind, n: nat) {
    var (tiny, one, two, four) := Markers(kind);
    || (n < 16 && h == [tiny + n])
    || (n < 0x100 && h == [one, n])
    || (n < 0x1_0000 && h == [two] + ToBe(n, 2))
    || (n < 0x1_0000_0000 && kind != KStruct && h == [four] + ToBe(n, 4))
  }

  /** A signed number of some width, highest byte first. */
  ghost predicate IsSigned(bs: seq<Byte>, i: int, width: nat) {
    FitsSigned(i, width) && bs == ToBe(if i < 0 then i + Pow256(width) else i, width)
  }

  ghost predicate IsInteger(bs: seq<Byte>, i: I64) {
    || (-16 <= i <= 127 && bs == [if i < 0 then i + 256 else i])
    || (bs != [] && bs[0] == 0xC8 && IsSigned(bs[1..], i, 1))
    || (bs != [] && bs[0] == 0xC9 && IsSigned(bs[1..], i, 2))
    || (bs != [] && bs[0] == 0xCA && IsSigned(bs[1..], i, 4))
    || (bs != [] && bs[0] == 0xCB && IsSigned(bs[1..], i, 8))
  }

  /** The bytes stand for the value. */
  ghost predicate Denotes(bs: seq<Byte>, v: PackValue)
    decreases |bs|, 0
  {
    match v
    case Null => bs == [0xC0]
    case Boolean(b) => bs == [if b then 0xC3 else 0xC2]
    case Integer(i) => IsInteger(bs, i)
    case Float(f) => bs == [0xC1] + f
    case String(s) => exists h :: Announces(h, KString, |s|) && bs == h + s
    case Bytes(_) => false
    case List(vs) => exists k :: 0 < k <= |bs| && Announces(bs[..k], KList, |vs|) && AllDenote(bs[k..], vs)
    case Map(m) => exists k, n :: 0 < k <= |bs| && Announces(bs[..k], KMap, n) && EntriesDenote(bs[k..], n, m)
    case Structure(tag, vs) =>
      exists k :: 0 < k < |bs| && Announces(bs[..k], KStruct, |vs|) && bs[k] == tag && AllDenote(bs[k + 1..], vs)
  }

  /** The bytes stand for the values, one behind the other. */
  ghost predicate AllDenote(bs: seq<Byte>, vs: seq<PackValue>)
    decreases |bs|, |vs| + 1
  {
    if vs == [] then bs == []
    else exists k :: 0 <= k <= |bs| && AllDenote(bs[..k], vs[..|vs| - 1]) && Denotes(bs[k..], vs[|vs| - 1])
  }

  /** The bytes stand for n keys with their values; of equal keys the last one counts. */
  ghost predicate EntriesDenote(bs: seq<Byte>, n: nat, m: map<Text, PackValue>)
    decreases |bs|, n + 2
  {
    if n == 0 then bs == [] && m == map[]
    else exists i, m': map<Text, PackValue> ::
           0 <= i <= |bs| && EntriesDenote(bs[..i], n - 1, m') && EntryAdds(bs[i..], m', m)
  }

  ghost predicate EntryAdds(bs: seq<Byte>, m': map<Text, PackValue>, m: map<Text, PackValue>)
    decreases |bs|, 2
  {
    exists key: Text, v :: EntryDenotes(bs, key, v) && m == m'[key := v]
  }

  ghost predicate EntryDenotes(bs: seq<Byte>, key: Text, v: PackValue)
    decreases |bs|, 1
  {
    exists j :: 0 <= j <= |bs| && Denotes(bs[..j], String(key)) && Denotes(bs[j..], v)
  }

  lemma Adds(bs: seq<Byte>, m: map<Text, PackValue>, key: Text, v: PackValue)
    requires EntryDenotes(bs, key, v)
    ensures EntryAdds(bs, m, m[key := v])
  {
    hide EntryDenotes, ValidUtf8;
  }

  lemma Added(bs: seq<Byte>, m': map<Text, PackValue>, m: map<Text, PackValue>) returns (key: Text, v: PackValue)
    requires EntryAdds(bs, m', m)
    ensures EntryDenotes(bs, key, v) && m == m'[key := v]
  {
    hide EntryDenotes, ValidUtf8;
    key, v :| EntryDenotes(bs, key, v) && m == m'[key := v];
  }

  // ---------------------------------------------------------------- numbers and announcements

  lemma {:induction false} BeInverse(bs: seq<Byte>)
    ensures ToBe(FromBe(bs), |bs|) == bs
  {
    if bs != [] {
      var front, last := bs[..|bs| - 1], bs[|bs| - 1];
      BeInverse(front);
      LowByte(last, FromBe(front));
      assert bs == front + [last];
    }
  }

  /** What a signed number of some width is read as. */
  lemma SignedExactly(bs: seq<Byte>, i: I64)
    requires 1 <= |bs| <= 8
    ensures ReadSigned(bs) == i <==> IsSigned(bs, i, |bs|)
  {
    hide ToBe, FromBe, Pow256;
    BeInverse(bs);
    BeBounded(bs);
    var w := |bs|;
    if FitsSigned(i, w) {
      BeRoundTrip(if i < 0 then i + Pow256(w) else i, w);
    }
  }

  /** What the decoder takes for an announcement is one. */
  lemma AnnouncementSound(buf: seq<Byte>, kind: Kind, w: nat)
    requires buf != [] && Shape(buf[0]) == Some((kind, w)) && |buf| >= 1 + w
    ensures Announces(buf[..1 + w], kind, if w == 0 then buf[0] % 16 else FromBe(buf[1..1 + w]))
  {
    hide ToBe, FromBe, Pow256;
    assert buf[..1 + w] == [buf[0]] + buf[1..1 + w];
    Powers();
    if w > 0 {
      BeInverse(buf[1..1 + w]);
      BeBounded(buf[1..1 + w]);
      if w == 1 {
        OneByte(buf[1]);
        assert buf[1..2] == [buf[1]];
      }
    }
  }

  lemma OneByte(b: Byte)
    ensures FromBe([b]) == b
  {
    assert [b][..0] == [];
  }

  /** An announcement is read as what it announces. */
  lemma AnnouncementRead(h: seq<Byte>, kind: Kind, n: nat, rest: seq<Byte>)
    requires Announces(h, kind, n)
    ensures var buf := h + rest;
            && h != [] && Shape(buf[0]) == Some((kind, |h| - 1)) && buf[|h|..] == rest
            && n == if |h| == 1 then buf[0] % 16 else FromBe(buf[1..|h|])
  {
    hide ToBe, FromBe, Pow256;
    var buf := h + rest;
    assert buf[1..|h|] == h[1..] && buf[|h|..] == rest;
    Powers();
    if |h| == 2 {
      assert h[1..] == [h[1]];
      OneByte(h[1]);
    } else if |h| == 3 {
      BeRoundTrip(n, 2);
    } else if |h| == 5 {
      BeRoundTrip(n, 4);
    }
  }

  // ---------------------------------------------------------------- everything read is in the grammar

  lemma ScalarSound(buf: seq<Byte>)
    requires buf != [] && DecodeScalar(buf).Ok?
    ensures Denotes(buf[..DecodeScalar(buf).consumed], DecodeScalar(buf).value)
  {
    hide ToBe, FromBe, Pow256, IsSigned, ReadSigned;
    var m, r := buf[0], DecodeScalar(buf);
    var bs := buf[..r.consumed];
    assert bs[0] == m;
    if r.value.Integer? {
      IntegerSound(buf);
    } else if r.value.Float? {
      assert bs == [0xC1] + buf[1..9];
    }
  }

  lemma IntegerSound(buf: seq<Byte>)
    requires buf != [] && DecodeScalar(buf).Ok? && DecodeScalar(buf).value.Integer?
    ensures IsInteger(buf[..DecodeScalar(buf).consumed], DecodeScalar(buf).value.i)
  {
    hide ToBe, FromBe, Pow256, IsSigned, ReadSigned;
    var r := DecodeScalar(buf);
    var bs := buf[..r.consumed];
    if r.consumed == 1 {
      TinyInteger(buf[0]);
      assert bs == [buf[0]];
    } else {
      assert bs[1..] == buf[1..r.consumed];
      SignedExactly(buf[1..r.consumed], r.value.i);
    }
  }

  lemma TinyInteger(m: Byte)
    ensures ReadSigned([m]) == if m < 128 then m else m - 256
  {
    OneByte(m);
    Powers();
  }

  lemma {:induction false} DecodeSound(buf: seq<Byte>)
    requires Decode(buf).Ok?
    ensures Denotes(buf[..Decode(buf).consumed], Decode(buf).value)
    decreases |buf|, 0
  {
    hide Announces, DecodeScalar, DecodeContent, ToBe, FromBe, ValidUtf8;
    match Shape(buf[0])
    case None => ScalarSound(buf);
    case Some((kind, w)) =>
      var n := if w == 0 then buf[0] % 16 else FromBe(buf[1..1 + w]);
      AnnouncementSound(buf, kind, w);
      ContentSound(kind, buf, 1 + w, n);
  }

  lemma {:induction false} ContentSound(kind: Kind, buf: seq<Byte>, at: nat, n: nat)
    requires 0 < at <= |buf| && Announces(buf[..at], kind, n) && DecodeContent(kind, buf[at..], n).Ok?
    ensures var r := DecodeContent(kind, buf[at..], n);
            Denotes(buf[..at + r.consumed], r.value)
    decreases |buf|, 0, 0
  {
    hide Announces, Denotes, AllDenote, EntriesDenote, DecodeItems, DecodeEntries, ToBe, FromBe, ValidUtf8;
    var rest := buf[at..];
    match kind
    case KString =>
      assert buf[..at + n] == buf[..at] + rest[..n];
      StringDenoted(buf[..at], rest[..n]);
    case KList =>
      ItemsSound(rest, n);
      var r := DecodeItems(rest, n);
      var bs := buf[..at + r.consumed];
      assert bs[..at] == buf[..at] && bs[at..] == rest[..r.consumed];
      ListDenoted(bs, at, r.value);
    case KMap =>
      EntriesSound(rest, n);
      var r := DecodeEntries(rest, n);
      var bs := buf[..at + r.consumed];
      assert bs[..at] == buf[..at] && bs[at..] == rest[..r.consumed];
      MapDenoted(bs, at, n, r.value);
    case KStruct =>
      ItemsSound(rest[1..], n);
      var r := DecodeItems(rest[1..], n);
      var bs := buf[..at + 1 + r.consumed];
      assert bs[..at] == buf[..at] && bs[at] == rest[0] && bs[at + 1..] == rest[1..][..r.consumed];
      StructureDenoted(bs, at, r.value);
  }

  lemma StringDenoted(h: seq<Byte>, s: Text)
    requires Announces(h, KString, |s|)
    ensures Denotes(h + s, String(s))
  {
    hide Announces, ValidUtf8;
  }

  lemma ListDenoted(bs: seq<Byte>, k: nat, vs: seq<PackValue>)
    requires 0 < k <= |bs| && Announces(bs[..k], KList, |vs|) && AllDenote(bs[k..], vs)
    ensures Denotes(bs, List(vs))
  {
    hide Announces, AllDenote;
  }

  lemma MapDenoted(bs: seq<Byte>, k: nat, n: nat, m: map<Text, PackValue>)
    requires 0 < k <= |bs| && Announces(bs[..k], KMap, n) && EntriesDenote(bs[k..], n, m)
    ensures Denotes(bs, Map(m))
  {
    hide Announces, EntriesDenote;
  }

  lemma StructureDenoted(bs: seq<Byte>, k: nat, vs: seq<PackValue>)
    requires 0 < k < |bs| && Announces(bs[..k], KStruct, |vs|) && AllDenote(bs[k + 1..], vs)
    ensures Denotes(bs, Structure(bs[k], vs))
  {
    hide Announces, AllDenote;
  }

  lemma {:induction false} ItemsSound(buf: seq<Byte>, n: nat)
    requires DecodeItems(buf, n).Ok?
    ensures var r := DecodeItems(buf, n);
            |r.value| == n && AllDenote(buf[..r.consumed], r.value)
    decreases |buf|, n + 1
  {
    hide Decode, Denotes;
    if n > 0 {
      ItemsSound(buf, n - 1);
      var before, r := DecodeItems(buf, n - 1), DecodeItems(buf, n);
      var at := before.consumed;
      DecodeSound(buf[at..]);
      var bs := buf[..r.consumed];
      assert bs[..at] == buf[..at] && bs[at..] == buf[at..][..r.consumed - at];
      assert r.value[..n - 1] == before.value;
    }
  }

  lemma {:induction false} EntriesSound(buf: seq<Byte>, n: nat)
    requires DecodeEntries(buf, n).Ok?
    ensures EntriesDenote(buf[..DecodeEntries(buf, n).consumed], n, DecodeEntries(buf, n).value)
    decreases |buf|, n + 1
  {
    hide Decode, DecodeEntry, Denotes, EntryDenotes, EntryAdds, ValidUtf8;
    if n > 0 {
      EntriesSound(buf, n - 1);
      var before, r := DecodeEntries(buf, n - 1), DecodeEntries(buf, n);
      var at := before.consumed;
      EntrySound(buf[at..]);
      var bs := buf[..r.consumed];
      assert bs[..at] == buf[..at] && bs[at..] == buf[at..][..r.consumed - at];
      var entry := DecodeEntry(buf[at..]).value;
      Adds(bs[at..], before.value, entry.0, entry.1);
    }
  }

  lemma EntrySound(buf: seq<Byte>)
    requires DecodeEntry(buf).Ok?
    ensures var r := DecodeEntry(buf);
            EntryDenotes(buf[..r.consumed], r.value.0, r.value.1)
    decreases |buf|, 1
  {
    hide Decode, Denotes, ValidUtf8;
    var at, r := Decode(buf).consumed, DecodeEntry(buf);
    DecodeSound(buf);
    DecodeSound(buf[at..]);
    var bs := buf[..r.consumed];
    assert bs[..at] == buf[..at] && bs[at..] == buf[at..][..r.consumed - at];
  }

  // ---------------------------------------------------------------- everything in the grammar is read

  lemma ScalarRead(bs: seq<Byte>, v: PackValue, rest: seq<Byte>)
    requires Denotes(bs, v) && (v.Null? || v.Boolean? || v.Float?)
    ensures Decode(bs + rest) == Ok(v, |bs|)
  {
    hide ToBe, FromBe, Pow256;
    assert (bs + rest)[0] == bs[0];
    if v.Float? {
      assert (bs + rest)[1..9] == v.f;
    }
  }

  lemma IntegerRead(bs: seq<Byte>, i: I64, rest: seq<Byte>)
    requires IsInteger(bs, i)
    ensures Decode(bs + rest) == Ok(Integer(i), |bs|)
  {
    hide ToBe, FromBe, Pow256, ReadSigned;
    var buf := bs + rest;
    assert bs != [] && buf[0] == bs[0];
    if -16 <= i <= 127 && bs == [if i < 0 then i + 256 else i] {
      TinyInteger(bs[0]);
    } else {
      var w := |bs| - 1;
      assert buf[1..1 + w] == bs[1..];
      SignedExactly(bs[1..], i);
    }
  }

  lemma {:induction false} DecodeComplete(bs: seq<Byte>, v: PackValue, rest: seq<Byte>)
    requires Denotes(bs, v)
    ensures Decode(bs + rest) == Ok(v, |bs|)
    decreases |bs|, 0
  {
    hide Decode, DecodeContent, Announces, AllDenote, EntriesDenote, IsInteger, ValidUtf8;
    match v
    case Integer(i) => IntegerRead(bs, i, rest);
    case String(s) =>
      var h :| Announces(h, KString, |s|) && bs == h + s;
      TextRead(s, rest);
      Announced(h, KString, |s|, s, rest, String(s));
    case List(vs) =>
      var k :| 0 < k <= |bs| && Announces(bs[..k], KList, |vs|) && AllDenote(bs[k..], vs);
      AllComplete(bs[k..], vs, rest);
      ContentIs(bs[k..] + rest, |vs|);
      Announced(bs[..k], KList, |vs|, bs[k..], rest, v);
      assert bs == bs[..k] + bs[k..];
    case Map(m) =>
      var k, n :| 0 < k <= |bs| && Announces(bs[..k], KMap, n) && EntriesDenote(bs[k..], n, m);
      EntriesComplete(bs[k..], n, m, rest);
      ContentIs(bs[k..] + rest, n);
      Announced(bs[..k], KMap, n, bs[k..], rest, v);
      assert bs == bs[..k] + bs[k..];
    case Structure(tag, vs) =>
      var k :| 0 < k < |bs| && Announces(bs[..k], KStruct, |vs|) && bs[k] == tag && AllDenote(bs[k + 1..], vs);
      AllComplete(bs[k + 1..], vs, rest);
      assert (bs[k..] + rest)[1..] == bs[k + 1..] + rest;
      ContentIs(bs[k..] + rest, |vs|);
      Announced(bs[..k], KStruct, |vs|, bs[k..], rest, v);
      assert bs == bs[..k] + bs[k..];
    case _ => ScalarRead(bs, v, rest);
  }

  lemma ReadBehind(buf: seq<Byte>, at: nat, kind: Kind, n: nat, v: PackValue, c: nat)
    requires 0 < at <= |buf| && Shape(buf[0]) == Some((kind, at - 1))
    requires n == if at == 1 then buf[0] % 16 else FromBe(buf[1..at])
    requires DecodeContent(kind, buf[at..], n) == Ok(v, c)
    ensures Decode(buf) == Ok(v, at + c)
  {
    hide DecodeContent, Shape, FromBe;
  }

  /** A content behind its announcement. */
  lemma Announced(h: seq<Byte>, kind: Kind, n: nat, content: seq<Byte>, rest: seq<Byte>, v: PackValue)
    requires Announces(h, kind, n) && DecodeContent(kind, content + rest, n) == Ok(v, |content|)
    ensures Decode(h + content + rest) == Ok(v, |h + content|)
  {
    hide Announces, Decode, DecodeContent, Shape, ToBe, FromBe;
    AnnouncementRead(h, kind, n, content + rest);
    ReadBehind(h + (content + rest), |h|, kind, n, v, |content|);
    assert h + content + rest == h + (content + rest);
  }

  lemma TextRead(s: Text, rest: seq<Byte>)
    ensures DecodeContent(KString, s + rest, |s|) == Ok(String(s), |s|)
  {
    hide ValidUtf8;
    assert (s + rest)[..|s|] == s;
  }

  /** How contents are made from items and entries. */
  lemma ContentIs(buf: seq<Byte>, n: nat)
    ensures DecodeItems(buf, n).Ok? ==>
              DecodeContent(KList, buf, n) == Ok(List(DecodeItems(buf, n).value), DecodeItems(buf, n).consumed)
    ensures DecodeEntries(buf, n).Ok? ==>
              DecodeContent(KMap, buf, n) == Ok(Map(DecodeEntries(buf, n).value), DecodeEntries(buf, n).consumed)
    ensures buf != [] && DecodeItems(buf[1..], n).Ok? ==>
              DecodeContent(KStruct, buf, n)
              == Ok(Structure(buf[0], DecodeItems(buf[1..], n).value), 1 + DecodeItems(buf[1..], n).consumed)
  {
    hide DecodeItems, DecodeEntries, ValidUtf8;
  }

  lemma {:induction false} AllComplete(bs: seq<Byte>, vs: seq<PackValue>, rest: seq<Byte>)
    requires AllDenote(bs, vs)
    ensures DecodeItems(bs + rest, |vs|) == Ok(vs, |bs|)
    decreases |bs|, |vs| + 1
  {
    hide Decode, Denotes;
    if vs != [] {
      var front, last := vs[..|vs| - 1], vs[|vs| - 1];
      var k :| 0 <= k <= |bs| && AllDenote(bs[..k], front) && Denotes(bs[k..], last);
      AllComplete(bs[..k], front, bs[k..] + rest);
      DecodeComplete(bs[k..], last, rest);
      assert bs + rest == bs[..k] + (bs[k..] + rest);
      assert (bs + rest)[k..] == bs[k..] + rest;
      assert vs == front + [last];
    }
  }

  lemma {:induction false} EntriesComplete(bs: seq<Byte>, n: nat, m: map<Text, PackValue>, rest: seq<Byte>)
    requires EntriesDenote(bs, n, m)
    ensures DecodeEntries(bs + rest, n) == Ok(m, |bs|)
    decreases |bs|, n + 1
  {
    hide DecodeEntry, EntryDenotes, ValidUtf8;
    if n > 0 {
      var i, m': map<Text, PackValue> :|
        0 <= i <= |bs| && EntriesDenote(bs[..i], n - 1, m') && EntryAdds(bs[i..], m', m);
      var key, v := Added(bs[i..], m', m);
      EntriesComplete(bs[..i], n - 1, m', bs[i..] + rest);
      EntryComplete(bs[i..], key, v, rest);
      assert bs + rest == bs[..i] + (bs[i..] + rest);
      assert (bs + rest)[i..] == bs[i..] + rest;
    }
  }

  lemma EntryComplete(bs: seq<Byte>, key: Text, v: PackValue, rest: seq<Byte>)
    requires EntryDenotes(bs, key, v)
    ensures DecodeEntry(bs + rest) == Ok((key, v), |bs|)
    decreases |bs|, 1
  {
    hide Decode, Denotes, ValidUtf8;
    var j :| 0 <= j <= |bs| && Denotes(bs[..j], String(key)) && Denotes(bs[j..], v);
    DecodeComplete(bs[..j], String(key), bs[j..] + rest);
    DecodeComplete(bs[j..], v, rest);
    assert bs + rest == bs[..j] + (bs[j..] + rest);
    assert (bs + rest)[j..] == bs[j..] + rest;
  }

  /** The decoder reads a value from a buffer exactly when the bytes it consumes stand for that value. */
  lemma DecodeExactly(buf: seq<Byte>, v: PackValue, n: nat)
    ensures Decode(buf) == Ok(v, n) <==> n <= |buf| && Denotes(buf[..n], v)
  {
    hide Decode, Denotes;
    if Decode(buf) == Ok(v, n) {
      DecodeSound(buf);
    }
    if n <= |buf| && Denotes(buf[..n], v) {
      DecodeComplete(buf[..n], v, buf[n..]);
      assert buf == buf[..n] + buf[n..];
    }
  }

  /** No bytes stand for two values, and no value's bytes begin another's. */
  lemma OneMeaning(bs: seq<Byte>, v: PackValue, rest: seq<Byte>, u: PackValue)
    requires Denotes(bs, v) && Denotes(bs + rest, u)
    ensures rest == [] && u == v
  {
    hide Decode, Denotes;
    DecodeComplete(bs, v, rest);
    DecodeComplete(bs + rest, u, []);
    assert bs + rest + [] == bs + rest;
  }

  /** What the encoder writes for a representable value stands for it. */
  lemma EncodedDenotes(w: Listing)
    requires OnceEach(w) && Representable(ValueOf(w))
    ensures Denotes(Encode(w), ValueOf(w))
  {
    hide Decode, Denotes, Encode, ValueOf, Representable, OnceEach;
    RoundTrip(w, []);
    assert Encode(w) + [] == Encode(w);
    DecodeExactly(Encode(w), ValueOf(w), |Encode(w)|);
  }
}
