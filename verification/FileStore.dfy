/**
 * The store file: two header slots and an append-only area of checkpoint blocks. A checkpoint
 * appends its block and then switches the slots, shadow first.
 */
module FileStore {
  import opened Bytes
  import opened Encoding
  import opened Checksum

  const HEADER_SIZE: nat := 4096
  const RECORD_SIZE: nat := 28
  const MAGIC: seq<Byte> := [0x48, 0x32, 0x52, 0x53]

  datatype Header = Header(version: nat, lastOffset: nat, lastLength: nat)

  predicate Encodable(h: Header) {
    h.version < Pow256(8) && h.lastOffset < Pow256(8) && h.lastLength < Pow256(4)
  }

  // ---------------------------------------------------------------- header records

  function Serialize(h: Header): (bs: seq<Byte>)
    ensures |bs| == RECORD_SIZE
  {
    var body := MAGIC + ToLe(h.version, 8) + ToLe(h.lastOffset, 8) + ToLe(h.lastLength, 4);
    body + ToLe(Crc32(body), 4)
  }

  function Deserialize(bs: seq<Byte>): (h: Option<Header>)
    requires |bs| == RECORD_SIZE
  {
    if bs[..4] != MAGIC then None
    else if Crc32(bs[..24]) != FromLe(bs[24..28]) then None
    else Some(Header(FromLe(bs[4..12]), FromLe(bs[12..20]), FromLe(bs[20..24])))
  }

  lemma HeaderRoundTrip(h: Header)
    requires Encodable(h)
    ensures Deserialize(Serialize(h)) == Some(h)
  {
    hide Crc32;
    var bs := Serialize(h);
    var body := MAGIC + ToLe(h.version, 8) + ToLe(h.lastOffset, 8) + ToLe(h.lastLength, 4);
    assert bs[..24] == body && bs[24..28] == ToLe(Crc32(body), 4);
    assert bs[..4] == MAGIC && bs[4..12] == ToLe(h.version, 8);
    assert bs[12..20] == ToLe(h.lastOffset, 8) && bs[20..24] == ToLe(h.lastLength, 4);
    Powers();
    LeRoundTrip(h.version, 8);
    LeRoundTrip(h.lastOffset, 8);
    LeRoundTrip(h.lastLength, 4);
    LeRoundTrip(Crc32(body), 4);
  }

  // ---------------------------------------------------------------- the file

  /** A checkpoint on disk: a full chunk, or a delta that names its predecessor. */
  datatype Block =
    | Full(length: nat, content: nat)
    | Delta(length: nat, content: nat, prevOffset: nat, prevLength: nat)

  datatype File = File(primary: seq<Byte>, shadow: seq<Byte>, blocks: map<nat, Block>, len: nat)

  ghost predicate Shaped(f: File) {
    |f.primary| == RECORD_SIZE && |f.shadow| == RECORD_SIZE && f.len >= HEADER_SIZE
  }

  /** The header `open` settles on: the newer valid record, the primary on a tie, none if neither is valid. */
  function OpenHeader(f: File): (h: Option<Header>)
    requires Shaped(f)
  {
    match (Deserialize(f.primary), Deserialize(f.shadow))
    case (Some(p), Some(s)) => if s.version > p.version then Some(s) else Some(p)
    case (Some(p), None) => Some(p)
    case (None, s) => s
  }

  /** The block at an offset, if its bounds and length are as its reference says. */
  function BlockAt(f: File, offset: nat, length: nat): (b: Option<Block>) {
    if HEADER_SIZE <= offset && offset + length <= f.len && offset in f.blocks && f.blocks[offset].length == length
    then Some(f.blocks[offset]) else None
  }

  /** A chain that leads back to a full chunk or to nothing, each delta standing after its predecessor. */
  ghost predicate Intact(f: File, offset: nat, length: nat)
    decreases offset
  {
    length == 0 ||
    (BlockAt(f, offset, length).Some? &&
     var b := f.blocks[offset];
     b.Delta? ==> b.prevLength == 0 || (b.prevOffset + b.prevLength <= offset && Intact(f, b.prevOffset, b.prevLength)))
  }

  /** The blocks of an intact chain, oldest first. */
  ghost function Chain(f: File, offset: nat, length: nat): (bs: seq<Block>)
    requires Intact(f, offset, length)
    decreases offset
  {
    if length == 0 then [] else
      var b := f.blocks[offset];
      if b.Full? then [b]
      else if b.prevLength == 0 then [b]
      else Chain(f, b.prevOffset, b.prevLength) + [b]
  }

  datatype Walk = Corrupted | Blocks(blocks: seq<Block>)

  /** The blocks that following references from an offset gives, oldest first, on any file. */
  ghost predicate Linked(f: File, offset: nat, length: nat, bs: seq<Block>)
    decreases |bs|
  {
    if length == 0 then bs == []
    else
      && bs != [] && BlockAt(f, offset, length) == Some(bs[|bs| - 1])
      && var b, older := bs[|bs| - 1], bs[..|bs| - 1];
      if b.Full? then older == [] else Linked(f, b.prevOffset, b.prevLength, older)
  }

  /** Following references is deterministic. */
  lemma {:induction false} LinkedUnique(f: File, offset: nat, length: nat, a: seq<Block>, b: seq<Block>)
    requires Linked(f, offset, length, a) && Linked(f, offset, length, b)
    ensures a == b
    decreases |a|
  {
    if length != 0 {
      var last := a[|a| - 1];
      if last.Delta? {
        LinkedUnique(f, last.prevOffset, last.prevLength, a[..|a| - 1], b[..|b| - 1]);
      }
      assert a == a[..|a| - 1] + [last] && b == b[..|b| - 1] + [last];
    }
  }

  /** An intact chain is what following its references gives. */
  lemma {:induction false} IntactLinked(f: File, offset: nat, length: nat)
    requires Intact(f, offset, length)
    ensures Linked(f, offset, length, Chain(f, offset, length))
    decreases offset
  {
    if length != 0 {
      var b := f.blocks[offset];
      if b.Delta? && b.prevLength != 0 {
        IntactLinked(f, b.prevOffset, b.prevLength);
        var older := Chain(f, b.prevOffset, b.prevLength);
        assert (older + [b])[..|older|] == older;
      } else {
        assert [b][..0] == [];
      }
    }
  }

  /** One step back: what is linked here is what is linked at the predecessor, and this block. */
  lemma StepBack(f: File, offset: nat, length: nat, bs: seq<Block>)
    requires length != 0 && BlockAt(f, offset, length).Some? && f.blocks[offset].Delta?
    ensures var b := f.blocks[offset];
            && (Linked(f, b.prevOffset, b.prevLength, bs) ==> Linked(f, offset, length, bs + [b]))
            && (Linked(f, offset, length, bs) ==>
                  && bs != [] && bs[|bs| - 1] == b && Linked(f, b.prevOffset, b.prevLength, bs[..|bs| - 1]))
  {
    var b := f.blocks[offset];
    assert (bs + [b])[..|bs|] == bs;
  }

  /** The walk so far: everything linked at the header is something linked here, then the newer blocks. */
  ghost predicate Reached(f: File, h: Header, offset: nat, length: nat, newer: seq<Block>) {
    && (forall xs :: Linked(f, offset, length, xs) ==> Linked(f, h.lastOffset, h.lastLength, xs + newer))
    && (forall bs :: Linked(f, h.lastOffset, h.lastLength, bs) ==>
          |newer| <= |bs| && bs == bs[..|bs| - |newer|] + newer && Linked(f, offset, length, bs[..|bs| - |newer|]))
  }

  /** From every visited block the walk came here by at least one step. */
  ghost predicate Passed(f: File, visited: set<nat>, offset: nat, length: nat) {
    forall x, zs :: x in visited && x in f.blocks && Linked(f, x, f.blocks[x].length, zs) ==>
      exists ys :: |ys| < |zs| && Linked(f, offset, length, ys)
  }

  lemma ReachedForward(f: File, h: Header, offset: nat, length: nat, newer: seq<Block>, xs: seq<Block>)
    requires Reached(f, h, offset, length, newer)
    requires length != 0 && BlockAt(f, offset, length).Some? && f.blocks[offset].Delta?
    requires Linked(f, f.blocks[offset].prevOffset, f.blocks[offset].prevLength, xs)
    ensures Linked(f, h.lastOffset, h.lastLength, xs + ([f.blocks[offset]] + newer))
  {
    hide Linked;
    var b := f.blocks[offset];
    StepBack(f, offset, length, xs);
    assert xs + [b] + newer == xs + ([b] + newer);
  }

  lemma ReachedBack(f: File, h: Header, offset: nat, length: nat, newer: seq<Block>, bs: seq<Block>)
    requires Reached(f, h, offset, length, newer)
    requires length != 0 && BlockAt(f, offset, length).Some? && f.blocks[offset].Delta?
    requires Linked(f, h.lastOffset, h.lastLength, bs)
    ensures var b, n := f.blocks[offset], |newer| + 1;
            n <= |bs| && bs == bs[..|bs| - n] + ([b] + newer) && Linked(f, b.prevOffset, b.prevLength, bs[..|bs| - n])
  {
    hide Linked;
    var xs := bs[..|bs| - |newer|];
    StepBack(f, offset, length, xs);
    Shorter(bs, xs, f.blocks[offset], newer);
  }

  lemma ReachedNext(f: File, h: Header, offset: nat, length: nat, newer: seq<Block>)
    requires Reached(f, h, offset, length, newer)
    requires length != 0 && BlockAt(f, offset, length).Some? && f.blocks[offset].Delta?
    ensures var b := f.blocks[offset]; Reached(f, h, b.prevOffset, b.prevLength, [b] + newer)
  {
    hide Linked;
    var b := f.blocks[offset];
    forall xs | Linked(f, b.prevOffset, b.prevLength, xs)
      ensures Linked(f, h.lastOffset, h.lastLength, xs + ([b] + newer))
    {
      ReachedForward(f, h, offset, length, newer, xs);
    }
    var later := [b] + newer;
    forall bs | Linked(f, h.lastOffset, h.lastLength, bs)
      ensures |later| <= |bs| && bs == bs[..|bs| - |later|] + later && Linked(f, b.prevOffset, b.prevLength, bs[..|bs| - |later|])
    {
      ReachedBack(f, h, offset, length, newer, bs);
    }
  }

  lemma Shorter(bs: seq<Block>, xs: seq<Block>, b: Block, newer: seq<Block>)
    requires |newer| <= |bs| && xs == bs[..|bs| - |newer|] && bs == xs + newer && xs != [] && xs[|xs| - 1] == b
    ensures xs[..|xs| - 1] == bs[..|bs| - |newer| - 1] && bs == bs[..|bs| - |newer| - 1] + ([b] + newer)
  {
  }

  lemma PassedNext(f: File, visited: set<nat>, offset: nat, length: nat)
    requires Passed(f, visited, offset, length)
    requires length != 0 && BlockAt(f, offset, length).Some? && f.blocks[offset].Delta?
    ensures var b := f.blocks[offset]; Passed(f, visited + {offset}, b.prevOffset, b.prevLength)
  {
    hide Linked;
    var b := f.blocks[offset];
    forall x, zs | x in visited + {offset} && x in f.blocks && Linked(f, x, f.blocks[x].length, zs)
      ensures exists ys :: |ys| < |zs| && Linked(f, b.prevOffset, b.prevLength, ys)
    {
      if x in visited {
        var ys :| |ys| < |zs| && Linked(f, offset, length, ys);
        StepBack(f, offset, length, ys);
        assert Linked(f, b.prevOffset, b.prevLength, ys[..|ys| - 1]);
      } else {
        StepBack(f, offset, length, zs);
        assert Linked(f, b.prevOffset, b.prevLength, zs[..|zs| - 1]);
      }
    }
  }

  lemma LinkedBlock(f: File, offset: nat, length: nat, bs: seq<Block>)
    requires Linked(f, offset, length, bs) && length != 0
    ensures offset in f.blocks && f.blocks[offset].length == length
  {
  }

  /** Coming back to a visited block means the references go round in a circle. */
  lemma Circle(f: File, visited: set<nat>, offset: nat, length: nat, bs: seq<Block>)
    requires Passed(f, visited, offset, length) && offset in visited && length != 0
    ensures !Linked(f, offset, length, bs)
  {
    hide Linked;
    if Linked(f, offset, length, bs) {
      LinkedBlock(f, offset, length, bs);
      var ys :| |ys| < |bs| && Linked(f, offset, length, ys);
      LinkedUnique(f, offset, length, ys, bs);
    }
  }

  lemma Broken(f: File, h: Header, offset: nat, length: nat, newer: seq<Block>)
    requires Reached(f, h, offset, length, newer) && forall bs :: !Linked(f, offset, length, bs)
    ensures forall bs :: !Linked(f, h.lastOffset, h.lastLength, bs)
  {
    hide Linked;
  }

  /**
   * Walks the chain back from a header. It ends on every file, because no offset is visited twice. It
   * returns the linked blocks, oldest first, and reports corruption exactly when following the
   * references leads out of the file, to no block, or round in a circle.
   */
  method ReadCheckpointChain(f: File, h: Header) returns (r: Walk)
    ensures r.Blocks? ==> Linked(f, h.lastOffset, h.lastLength, r.blocks)
    ensures r.Corrupted? ==> forall bs :: !Linked(f, h.lastOffset, h.lastLength, bs)
    ensures Intact(f, h.lastOffset, h.lastLength) ==> r == Blocks(Chain(f, h.lastOffset, h.lastLength))
  {
    hide Linked, Reached, Passed, Intact, Chain;
    var offset: nat, length: nat := h.lastOffset, h.lastLength;
    var newer: seq<Block> := [];
    var visited: set<nat> := {};
    Setout(f, h);
    while length != 0
      invariant forall x :: x in visited ==> HEADER_SIZE <= x < f.len
      invariant Reached(f, h, offset, length, newer) && Passed(f, visited, offset, length)
      decreases f.len + 1 - |visited|
    {
      VisitedBounded(visited, f.len);
      if offset in visited || offset < HEADER_SIZE || offset + length > f.len || BlockAt(f, offset, length).None? {
        forall bs ensures !Linked(f, offset, length, bs) {
          if offset in visited {
            Circle(f, visited, offset, length, bs);
          } else {
            NoBlock(f, offset, length, bs);
          }
        }
        Broken(f, h, offset, length, newer);
        Settle(f, h, Corrupted);
        return Corrupted;
      }
      var b := f.blocks[offset];
      match b
      case Full(_, _) =>
        LastBlock(f, h, offset, length, newer);
        Settle(f, h, Blocks([b] + newer));
        return Blocks([b] + newer);
      case Delta(_, _, prevOffset, prevLength) =>
        ReachedNext(f, h, offset, length, newer);
        PassedNext(f, visited, offset, length);
        visited := visited + {offset};
        VisitedBounded(visited, f.len);
        newer := [b] + newer;
        offset, length := prevOffset, prevLength;
    }
    NoMore(f, h, offset, newer);
    Settle(f, h, Blocks(newer));
    return Blocks(newer);
  }

  lemma Setout(f: File, h: Header)
    ensures Reached(f, h, h.lastOffset, h.lastLength, []) && Passed(f, {}, h.lastOffset, h.lastLength)
  {
    hide Linked;
    forall bs: seq<Block> ensures bs + [] == bs && bs[..|bs|] == bs {}
  }

  lemma NoBlock(f: File, offset: nat, length: nat, bs: seq<Block>)
    requires length != 0 && BlockAt(f, offset, length).None?
    ensures !Linked(f, offset, length, bs)
  {
  }

  lemma LastBlock(f: File, h: Header, offset: nat, length: nat, newer: seq<Block>)
    requires Reached(f, h, offset, length, newer)
    requires length != 0 && BlockAt(f, offset, length).Some? && f.blocks[offset].Full?
    ensures Linked(f, h.lastOffset, h.lastLength, [f.blocks[offset]] + newer)
  {
    assert [f.blocks[offset]][..0] == [];
    assert Linked(f, offset, length, [f.blocks[offset]]);
  }

  lemma NoMore(f: File, h: Header, offset: nat, newer: seq<Block>)
    requires Reached(f, h, offset, 0, newer)
    ensures Linked(f, h.lastOffset, h.lastLength, newer)
  {
    assert Linked(f, offset, 0, []);
    assert [] + newer == newer;
  }

  /** On an intact chain the walk's result is that chain. */
  lemma Settle(f: File, h: Header, r: Walk)
    requires r.Blocks? ==> Linked(f, h.lastOffset, h.lastLength, r.blocks)
    requires r.Corrupted? ==> forall bs :: !Linked(f, h.lastOffset, h.lastLength, bs)
    ensures Intact(f, h.lastOffset, h.lastLength) ==> r == Blocks(Chain(f, h.lastOffset, h.lastLength))
  {
    hide Linked, Chain, Intact;
    if Intact(f, h.lastOffset, h.lastLength) {
      IntactLinked(f, h.lastOffset, h.lastLength);
      if r.Blocks? {
        LinkedUnique(f, h.lastOffset, h.lastLength, r.blocks, Chain(f, h.lastOffset, h.lastLength));
      }
    }
  }

  lemma {:induction false} VisitedBounded(s: set<nat>, n: nat)
    requires forall x :: x in s ==> x < n
    ensures |s| <= n
  {
    if n == 0 {
      assert s == {};
    } else {
      VisitedBounded(s - {n - 1}, n - 1);
    }
  }

  // ---------------------------------------------------------------- switching headers

  /** How far a checkpoint append got: a partial append or a torn record is n bytes of the new data. */
  datatype Progress =
    | NotStarted
    | Appending(n: nat)
    | Appended
    | ShadowTorn(n: nat)
    | ShadowDone
    | PrimaryTorn(n: nat)
    | Done

  /** A record overwritten up to byte n. */
  function Torn(old_: seq<Byte>, new_: seq<Byte>, n: nat): (bs: seq<Byte>)
    requires |old_| == |new_| == RECORD_SIZE && n <= RECORD_SIZE
    ensures |bs| == RECORD_SIZE
  {
    new_[..n] + old_[n..]
  }

  function NewHeader(f: File, b: Block, version: nat): (h: Header) {
    Header(version, f.len, b.length)
  }

  predicate Possible(p: Progress, b: Block) {
    match p
    case Appending(n) => n <= b.length
    case ShadowTorn(n) => n <= RECORD_SIZE
    case PrimaryTorn(n) => n <= RECORD_SIZE
    case _ => true
  }

  /** The file a crash leaves at a point of appending block b with a new version. */
  function FileAt(f: File, b: Block, version: nat, p: Progress): (r: File)
    requires Shaped(f) && Possible(p, b)
    ensures Shaped(r)
  {
    var record := Serialize(NewHeader(f, b, version));
    var appended := f.(blocks := f.blocks[f.len := b], len := f.len + b.length);
    match p
    case NotStarted => f
    case Appending(n) => f.(len := f.len + n)
    case Appended => appended
    case ShadowTorn(n) => appended.(shadow := Torn(f.shadow, record, n))
    case ShadowDone => appended.(shadow := record)
    case PrimaryTorn(n) => appended.(shadow := record, primary := Torn(f.primary, record, n))
    case Done => appended.(shadow := record, primary := record)
  }

  /**
   * The first cut at which a torn record may be something new. Up to the magic bytes it is the old
   * record, or still not one, and one changed byte after that is always detected.
   */
  function FirstUnsure(old_: seq<Byte>): (n: nat)
    requires |old_| == RECORD_SIZE
  {
    if Deserialize(old_).Some? then 6
    else if old_[..4] == MAGIC then 5
    else if old_[3] != MAGIC[3] then 4
    else 1
  }

  /**
   * No torn mix of two records decodes to a third header: what the record checksum is for. Only the
   * cuts inside the body, from `FirstUnsure` on, need this; the others are settled by `TornResolved`.
   */
  ghost predicate TearsDetected(old_: seq<Byte>, new_: seq<Byte>)
    requires |old_| == |new_| == RECORD_SIZE
  {
    forall n :: FirstUnsure(old_) <= n < 24 ==>
      var r := Deserialize(Torn(old_, new_, n));
      r == None || r == Deserialize(old_) || r == Deserialize(new_)
  }

  /** A record torn one byte behind where it first differs from the old one is never decoded. */
  lemma OneByteTorn(old_: seq<Byte>, new_: seq<Byte>, k: nat)
    requires |old_| == |new_| == RECORD_SIZE && Deserialize(old_).Some?
    requires k < 24 && old_[..k] == new_[..k] && old_[k] != new_[k]
    ensures Deserialize(Torn(old_, new_, k + 1)) == None
  {
    hide Crc32, FromLe;
    var r := Torn(old_, new_, k + 1);
    var a, c := old_[..k], old_[k + 1..24];
    OneByteDetected(a, old_[k], new_[k], c);
    assert old_[..24] == a + [old_[k]] + c;
    assert r[..24] == a + [new_[k]] + c;
    assert r[24..28] == old_[24..28];
  }

  lemma TornEarly(old_: seq<Byte>, h: Header, n: nat)
    requires |old_| == RECORD_SIZE && n < FirstUnsure(old_)
    ensures Deserialize(Torn(old_, Serialize(h), n)) in {None, Deserialize(old_)}
  {
    hide Crc32, FromLe, ToLe;
    var new_ := Serialize(h);
    assert new_[..4] == MAGIC;
    if n == 0 || (old_[..4] == MAGIC && n <= 4) || old_[..n] == new_[..n] {
      if old_[..4] == MAGIC && n <= 4 {
        assert old_[..n] == old_[..4][..n] && new_[..n] == new_[..4][..n];
      }
      assert Torn(old_, new_, n) == old_;
    } else if n < 4 {
      assert Torn(old_, new_, n)[..4][3] == old_[3];
    } else {
      assert old_[..5] == old_[..4] + [old_[4]] && new_[..5] == new_[..4] + [new_[4]];
      OneByteTorn(old_, new_, 4);
    }
  }

  lemma TornLate(old_: seq<Byte>, h: Header, n: nat)
    requires |old_| == RECORD_SIZE && 24 <= n <= RECORD_SIZE && Encodable(h)
    ensures Deserialize(Torn(old_, Serialize(h), n)) in {None, Some(h)}
  {
    hide Crc32, FromLe, ToLe;
    HeaderRoundTrip(h);
    var new_, r := Serialize(h), Torn(old_, Serialize(h), n);
    assert r[..24] == new_[..24];
    assert r[..4] == new_[..24][..4] == new_[..4];
    assert r[4..12] == new_[..24][4..12] == new_[4..12];
    assert r[12..20] == new_[..24][12..20] == new_[12..20];
    assert r[20..24] == new_[..24][20..24] == new_[20..24];
  }

  /** Wherever a record write is torn, what is there decodes to nothing, to the old header or to the new one. */
  lemma TornResolved(old_: seq<Byte>, h: Header, n: nat)
    requires |old_| == RECORD_SIZE && n <= RECORD_SIZE && Encodable(h) && TearsDetected(old_, Serialize(h))
    ensures Deserialize(Torn(old_, Serialize(h), n)) in {None, Deserialize(old_), Some(h)}
  {
    hide Serialize, Deserialize;
    HeaderRoundTrip(h);
    if n < FirstUnsure(old_) {
      TornEarly(old_, h, n);
    } else if n >= 24 {
      TornLate(old_, h, n);
    }
  }

  /** The primary slot holds the current header, whose chain is intact, and the shadow slot no newer one. */
  ghost predicate Settled(f: File, h: Header) {
    && Shaped(f) && Deserialize(f.primary) == Some(h)
    && (var s := Deserialize(f.shadow); s.Some? ==> s.value.version <= h.version)
    && Intact(f, h.lastOffset, h.lastLength)
    && forall o :: o in f.blocks ==> o < f.len
  }

  /** A delta on the current header's block, or a full chunk when there is none. */
  predicate Follows(b: Block, h: Header) {
    b.length > 0 && (b.Delta? ==> b.prevOffset == h.lastOffset && b.prevLength == h.lastLength)
  }

  /** Appending beyond the end leaves every chain intact and as it was. */
  lemma {:induction false} ChainStable(f: File, g: File, offset: nat, length: nat)
    requires Intact(f, offset, length) && g.len >= f.len
    requires forall o :: o in f.blocks && o < f.len ==> o in g.blocks && g.blocks[o] == f.blocks[o]
    ensures Intact(g, offset, length) && Chain(g, offset, length) == Chain(f, offset, length)
    decreases offset
  {
    if length != 0 {
      var b := f.blocks[offset];
      if b.Delta? && b.prevLength != 0 {
        ChainStable(f, g, b.prevOffset, b.prevLength);
      }
    }
  }

  /** The new chain is the old one and the appended block. */
  lemma NewChain(f: File, g: File, h: Header, b: Block)
    requires Settled(f, h) && Follows(b, h)
    requires g.len == f.len + b.length && g.blocks == f.blocks[f.len := b]
    ensures Intact(g, h.lastOffset, h.lastLength)
    ensures Chain(g, h.lastOffset, h.lastLength) == Chain(f, h.lastOffset, h.lastLength)
    ensures Intact(g, f.len, b.length)
    ensures Chain(g, f.len, b.length) == if b.Full? then [b] else Chain(f, h.lastOffset, h.lastLength) + [b]
  {
    ChainStable(f, g, h.lastOffset, h.lastLength);
  }

  /**
   * The header switch is atomic: wherever a crash falls in a checkpoint append, torn records
   * included, opening finds the old header or the new one and the chain it names is intact: the
   * old chain, or the old chain extended by the appended block. Once the shadow record is
   * complete it is the new one.
   */
  lemma SwitchIsAtomic(f: File, h: Header, b: Block, version: nat, p: Progress)
    requires Settled(f, h) && Follows(b, h) && Possible(p, b)
    requires version > h.version && Encodable(NewHeader(f, b, version))
    requires TearsDetected(f.shadow, Serialize(NewHeader(f, b, version)))
    requires TearsDetected(f.primary, Serialize(NewHeader(f, b, version)))
    ensures var g, found := FileAt(f, b, version, p), OpenHeader(FileAt(f, b, version, p));
            && (found == Some(h) || found == Some(NewHeader(f, b, version)))
            && (p.NotStarted? || p.Appending? || p.Appended? ==> found == Some(h))
            && (p.ShadowDone? || p.PrimaryTorn? || p.Done? ==> found == Some(NewHeader(f, b, version)))
            && Intact(g, found.value.lastOffset, found.value.lastLength)
            && Chain(g, found.value.lastOffset, found.value.lastLength)
               == if found == Some(h) then Chain(f, h.lastOffset, h.lastLength)
                  else if b.Full? then [b]
                  else Chain(f, h.lastOffset, h.lastLength) + [b]
  {
    hide Serialize, Deserialize, Chain;
    var next := NewHeader(f, b, version);
    HeaderRoundTrip(next);
    if p.ShadowTorn? {
      TornResolved(f.shadow, next, p.n);
    } else if p.PrimaryTorn? {
      TornResolved(f.primary, next, p.n);
    }
    var g := FileAt(f, b, version, p);
    if p.NotStarted? || p.Appending? {
      ChainStable(f, g, h.lastOffset, h.lastLength);
    } else {
      NewChain(f, g, h, b);
    }
  }

  /**
   * The primary slot must hold the current header. When the torn shadow record does not decode, the
   * header found before the append is found again exactly if the primary record decodes to it: an
   * undecodable primary leaves nothing to open, a stale one an older header.
   */
  lemma TornTwice(f: File, b: Block, version: nat, n: nat)
    requires Shaped(f) && n <= RECORD_SIZE
    requires Deserialize(Torn(f.shadow, Serialize(NewHeader(f, b, version)), n)) == None
    ensures OpenHeader(FileAt(f, b, version, ShadowTorn(n))) == OpenHeader(f) <==> Deserialize(f.primary) == OpenHeader(f)
    ensures OpenHeader(FileAt(f, b, version, ShadowTorn(n))) == None <==> Deserialize(f.primary) == None
  {
    hide Serialize, Deserialize;
  }

  // ---------------------------------------------------------------- the file object

  class Store {
    var file: File
    var header: Header

    /** Appends a block, makes it durable, then switches the slots and the cached header. */
    method AppendAndCommit(b: Block, version: nat)
      requires Shaped(file)
      modifies this
      ensures file == FileAt(old(file), b, version, Done)
      ensures header == NewHeader(old(file), b, version)
    {
      var end := file.len;
      file := file.(blocks := file.blocks[end := b], len := end + b.length);
      var next := Header(version, end, b.length);
      var record := Serialize(next);
      file := file.(shadow := record);
      file := file.(primary := record);
      header := next;
    }

    /** Completes the reference of a delta to the current header's block before appending it. */
    method AppendDeltaAndCommit(length: nat, content: nat, version: nat)
      requires Shaped(file) && length > 0
      modifies this
      ensures var b := Block.Delta(length, content, old(header).lastOffset, old(header).lastLength);
              && Follows(b, old(header))
              && file == FileAt(old(file), b, version, Done)
              && header == NewHeader(old(file), b, version)
    {
      AppendAndCommit(Delta(length, content, header.lastOffset, header.lastLength), version);
    }
  }
}
