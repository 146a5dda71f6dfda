/** Bolt message framing: a payload in chunks of at most 65535 bytes, closed by an empty chunk. */
module BoltFraming {
  import opened Bytes
  import opened Encoding
  import opened PackStream
  import opened PackStreamLaws

  const MAX_CHUNK: nat := 65535

  const END_MARKER: seq<Byte> := [0, 0]

  function ChunkLength(n: nat): (k: nat)
    ensures k <= n && k <= MAX_CHUNK && (n > 0 ==> k > 0)
  {
    if n <= MAX_CHUNK then n else MAX_CHUNK
  }

  /** The chunks of a payload, without the end marker. */
  function Chunks(payload: seq<Byte>): (bs: seq<Byte>)
    decreases |payload|
  {
    if payload == [] then []
    else
      var k := ChunkLength(|payload|);
      ToBe(k, 2) + payload[..k] + Chunks(payload[k..])
  }

  function Framed(payload: seq<Byte>): (bs: seq<Byte>) {
    Chunks(payload) + END_MARKER
  }

  /** The outcome of reading a message: its bytes and what is left, a closed stream, or an error inside a chunk. */
  datatype Incoming = Message(bytes: seq<Byte>, rest: seq<Byte>) | Closed | Broken

  function ReadFrom(stream: seq<Byte>, sofar: seq<Byte>): (r: Incoming)
    decreases |stream|
  {
    if |stream| < 2 then Closed
    else
      var k := FromBe(stream[..2]);
      if k == 0 then Message(sofar, stream[2..])
      else if |stream| < 2 + k then Broken
      else ReadFrom(stream[2 + k..], sofar + stream[2..2 + k])
  }

  /** Writes a value as a framed message behind what the stream already holds. */
  method WriteMessage(w: Listing, stream: seq<Byte>) returns (stream': seq<Byte>)
    ensures stream' == stream + Framed(Encode(w))
  {
    hide Encode, ToBe, Chunks;
    var payload := Push(w, []);
    var offset := 0;
    stream' := stream;
    assert payload[0..] == payload;
    while offset < |payload|
      invariant offset <= |payload|
      invariant stream' + Chunks(payload[offset..]) == stream + Chunks(payload)
    {
      var n := |payload| - offset;
      var k := if n <= 65535 then n else 65535;
      NextChunk(payload, offset);
      Regroup(stream', ToBe(k, 2), payload[offset..offset + k], Chunks(payload[offset + k..]));
      stream' := stream' + ToBe(k, 2);
      stream' := stream' + payload[offset..offset + k];
      offset := offset + k;
    }
    NoChunks();
    assert payload[offset..] == [] && [] + Encode(w) == payload;
    assert stream' == stream + Chunks(payload);
    stream' := stream' + [0, 0];
  }

  lemma Regroup(a: seq<Byte>, b: seq<Byte>, c: seq<Byte>, d: seq<Byte>)
    ensures a + b + c + d == a + (b + c + d)
  {
  }

  lemma NoChunks()
    ensures Chunks([]) == []
  {
  }

  lemma NextChunk(payload: seq<Byte>, offset: nat)
    requires offset < |payload|
    ensures var k := ChunkLength(|payload| - offset);
            Chunks(payload[offset..]) == ToBe(k, 2) + payload[offset..offset + k] + Chunks(payload[offset + k..])
  {
    hide ToBe;
    var k := ChunkLength(|payload| - offset);
    assert payload[offset..][..k] == payload[offset..offset + k];
    assert payload[offset..][k..] == payload[offset + k..];
  }

  /** Reads one framed message from the front of a stream. */
  method ReadMessage(stream: seq<Byte>) returns (r: Incoming)
    ensures r == ReadFrom(stream, [])
  {
    hide FromBe;
    var message: seq<Byte> := [];
    var left := stream;
    while true
      invariant ReadFrom(left, message) == ReadFrom(stream, [])
      decreases |left|
    {
      if |left| < 2 {
        return Closed;
      }
      ghost var stream' := left;
      var k := FromBe(left[..2]);
      left := left[2..];
      if k == 0 {
        return Message(message, left);
      }
      if |left| < k {
        return Broken;
      }
      assert stream'[2..2 + k] == left[..k] && stream'[2 + k..] == left[k..];
      message, left := message + left[..k], left[k..];
    }
  }

  // ---------------------------------------------------------------- round trip

  lemma SizeBytes(k: nat, rest: seq<Byte>)
    requires k <= MAX_CHUNK
    ensures FromBe((ToBe(k, 2) + rest)[..2]) == k
  {
    hide FromBe, ToBe;
    Powers();
    BeRoundTrip(k, 2);
    assert (ToBe(k, 2) + rest)[..2] == ToBe(k, 2);
  }

  lemma ChunkRead(k: nat, chunk: seq<Byte>, tail: seq<Byte>, sofar: seq<Byte>)
    requires 0 < k <= MAX_CHUNK && |chunk| == k
    ensures ReadFrom(ToBe(k, 2) + (chunk + tail), sofar) == ReadFrom(tail, sofar + chunk)
  {
    hide FromBe, ToBe;
    var stream := ToBe(k, 2) + (chunk + tail);
    SizeBytes(k, chunk + tail);
    assert stream[2..2 + k] == chunk;
    assert stream[2 + k..] == tail;
  }

  lemma EndRead(sofar: seq<Byte>, rest: seq<Byte>)
    ensures ReadFrom(END_MARKER + rest, sofar) == Message(sofar, rest)
  {
    assert (END_MARKER + rest)[..2] == [0, 0];
    assert FromBe([0]) == 0 && FromBe([0, 0]) == 0 by {
      assert [0, 0][..1] == [0];
      assert FromBe([0]) == 256 * FromBe([0][..0]) + 0;
    }
  }

  /** A framed payload of any size is read back whole, and what follows it is left on the stream. */
  lemma {:induction false} FramedRead(payload: seq<Byte>, sofar: seq<Byte>, rest: seq<Byte>)
    ensures ReadFrom(Framed(payload) + rest, sofar) == Message(sofar + payload, rest)
    decreases |payload|
  {
    hide FromBe, ToBe, ReadFrom;
    if payload == [] {
      EndRead(sofar, rest);
      assert Framed(payload) + rest == END_MARKER + rest;
    } else {
      var k := ChunkLength(|payload|);
      var chunk, tail := payload[..k], Framed(payload[k..]) + rest;
      var stream := Framed(payload) + rest;
      assert stream == ToBe(k, 2) + (chunk + tail);
      ChunkRead(k, chunk, tail, sofar);
      FramedRead(payload[k..], sofar + chunk, rest);
      assert sofar + chunk + payload[k..] == sofar + payload;
    }
  }

  /** A value sent is the value received, in full, whatever follows on the stream. */
  lemma SentIsReceived(w: Listing, rest: seq<Byte>)
    requires OnceEach(w) && Representable(ValueOf(w))
    ensures ReadFrom(Framed(Encode(w)) + rest, []) == Message(Encode(w), rest)
    ensures Decode(Encode(w)) == Ok(ValueOf(w), |Encode(w)|)
  {
    hide Encode, Decode, ReadFrom, Framed, Representable, ValueOf, OnceEach;
    FramedRead(Encode(w), [], rest);
    RoundTrip(w, []);
    assert [] + Encode(w) == Encode(w) && Encode(w) + [] == Encode(w);
  }

  // ---------------------------------------------------------------- whole sessions

  /** The stream after sending values one after the other. */
  function Sent(ws: seq<Listing>): (bs: seq<Byte>) {
    if ws == [] then [] else Framed(Encode(ws[0])) + Sent(ws[1..])
  }

  datatype Session = Received(values: seq<PackValue>, rest: seq<Byte>) | Failed

  /** Reading and decoding n messages. */
  function Receive(stream: seq<Byte>, n: nat): (r: Session)
    decreases n
  {
    if n == 0 then Received([], stream)
    else match ReadFrom(stream, [])
      case Message(bytes, rest) =>
        (match Decode(bytes)
         case Ok(v, _) =>
           (match Receive(rest, n - 1)
            case Received(vs, left) => Received([v] + vs, left)
            case Failed => Failed)
         case Err(_) => Failed)
      case _ => Failed
  }

  /** All values sent in a session arrive, in order, and nothing else. */
  lemma {:induction false} SessionRoundTrip(ws: seq<Listing>, rest: seq<Byte>)
    requires forall i :: 0 <= i < |ws| ==> OnceEach(ws[i]) && Representable(ValueOf(ws[i]))
    ensures Receive(Sent(ws) + rest, |ws|) == Received(ValuesOf(ws), rest)
  {
    hide Encode, Decode, ReadFrom, Framed, Representable, ValueOf, OnceEach, ValuesOf;
    if ws == [] {
      NoValues();
      assert Sent(ws) + rest == rest;
    } else {
      SentIsReceived(ws[0], Sent(ws[1..]) + rest);
      SessionRoundTrip(ws[1..], rest);
      assert Sent(ws) + rest == Framed(Encode(ws[0])) + (Sent(ws[1..]) + rest);
      ValuesAt(ws);
      ValuesAt(ws[1..]);
      assert ValuesOf(ws) == [ValueOf(ws[0])] + ValuesOf(ws[1..]);
    }
  }

  lemma NoValues()
    ensures ValuesOf([]) == []
  {
  }

  // ---------------------------------------------------------------- streams cut short

  /** A message that was read stays the same message when more bytes arrive behind it. */
  lemma {:induction false} ReadStable(stream: seq<Byte>, sofar: seq<Byte>, t: seq<Byte>)
    requires ReadFrom(stream, sofar).Message?
    ensures ReadFrom(stream + t, sofar) == Message(ReadFrom(stream, sofar).bytes, ReadFrom(stream, sofar).rest + t)
    decreases |stream|
  {
    hide FromBe;
    assert (stream + t)[..2] == stream[..2];
    var k := FromBe(stream[..2]);
    if k == 0 {
      assert (stream + t)[2..] == stream[2..] + t;
    } else {
      assert (stream + t)[2..2 + k] == stream[2..2 + k];
      assert (stream + t)[2 + k..] == stream[2 + k..] + t;
      ReadStable(stream[2 + k..], sofar + stream[2..2 + k], t);
    }
  }

  /** A connection that breaks inside a message delivers no message at all. */
  lemma CutShortDeliversNothing(payload: seq<Byte>, n: nat)
    requires n < |Framed(payload)|
    ensures !ReadFrom(Framed(payload)[..n], []).Message?
  {
    hide ReadFrom, Framed;
    var bs := Framed(payload);
    if ReadFrom(bs[..n], []).Message? {
      ReadStable(bs[..n], [], bs[n..]);
      assert bs[..n] + bs[n..] == bs + [];
      FramedRead(payload, [], []);
    }
  }
}
