/** The CRC-32 checksum (section 8 of RFC 1952), and why a single changed byte never escapes it. */
module Checksum {
  import opened Bytes
  import opened Encoding

  // ---------------------------------------------------------------- bits of the register

  function And(c: bv32, d: bv32): bv32 {
    c & d
  }

  function Xor(c: bv32, d: bv32): bv32 {
    c ^ d
  }

  /** The bits of w one place up, behind a new low bit. */
  function Push(low: bool, w: bv32): bv32 {
    (w << 1) | (if low then 1 else 0)
  }

  /** A number as the low bits of a register. */
  function Word(b: nat): bv32 {
    if b == 0 then 0 else Push(b % 2 == 1, Word(b / 2))
  }

  // ---------------------------------------------------------------- the checksum

  function CrcBit(c: bv32): bv32 {
    if c & 1 == 1 then (c >> 1) ^ 0xEDB88320 else c >> 1
  }

  function CrcBits(c: bv32): bv32 {
    CrcBit(CrcBit(CrcBit(CrcBit(CrcBit(CrcBit(CrcBit(CrcBit(c))))))))
  }

  function CrcByte(c: bv32, b: Byte): bv32 {
    CrcBits(Xor(c, Word(b)))
  }

  /** Feeds bytes to a running checksum, one after the other. */
  function CrcUpdate(c: bv32, bs: seq<Byte>): (r: bv32) {
    if bs == [] then c else CrcByte(CrcUpdate(c, bs[..|bs| - 1]), bs[|bs| - 1])
  }

  const CRC_START: bv32 := 0xFFFFFFFF

  function CrcFinish(c: bv32): (r: U32) {
    (c ^ 0xFFFFFFFF) as int
  }

  function Crc32(bs: seq<Byte>): (r: U32) {
    CrcFinish(CrcUpdate(CRC_START, bs))
  }

  /** Feeding a buffer whole or in pieces gives the same running checksum. */
  lemma {:induction false} CrcStreams(c: bv32, a: seq<Byte>, b: seq<Byte>)
    ensures CrcUpdate(c, a + b) == CrcUpdate(CrcUpdate(c, a), b)
  {
    hide CrcByte;
    if b == [] {
      assert a + b == a;
    } else {
      CrcStreams(c, a, b[..|b| - 1]);
      assert (a + b)[..|a + b| - 1] == a + b[..|b| - 1];
    }
  }

  // ---------------------------------------------------------------- nothing is lost in the register

  function Mask(n: nat): bv32 {
    if n == 0 then 0 else Push(true, Mask(n - 1))
  }

  lemma AndZero(c: bv32)
    ensures And(0, c) == 0
  {
  }

  /** Shifting in a bit commutes with masking, when the mask lets it through. */
  lemma PushAnd(w: bv32, m: bv32)
    ensures And(Push(false, w), Push(true, m)) == Push(false, And(w, m))
    ensures And(Push(true, w), Push(true, m)) == Push(true, And(w, m))
  {
  }

  lemma PushFits(low: bool, w: bv32, m: bv32)
    requires And(w, m) == w
    ensures And(Push(low, w), Push(true, m)) == Push(low, w)
  {
    hide And, Push;
    PushAnd(w, m);
  }

  lemma PushInjective(p: bool, w: bv32, q: bool, u: bv32, m: bv32)
    requires And(w, m) == w && And(u, m) == u && And(m, 0x7FFFFFFF) == m && Push(p, w) == Push(q, u)
    ensures p == q && w == u
  {
  }

  function Pow2(n: nat): (p: nat)
    ensures p >= 1
  {
    if n == 0 then 1 else 2 * Pow2(n - 1)
  }

  lemma {:induction false} WordFits(b: nat, n: nat)
    requires b < Pow2(n)
    ensures And(Word(b), Mask(n)) == Word(b)
  {
    hide Push, And;
    if b == 0 {
      AndZero(Mask(n));
    } else {
      WordFits(b / 2, n - 1);
      PushFits(b % 2 == 1, Word(b / 2), Mask(n - 1));
    }
  }

  lemma SmallMask(n: nat)
    requires n <= 8
    ensures And(Mask(n), 0x7FFFFFFF) == Mask(n)
  {
    assert Mask(1) == 1 && Mask(2) == 3 && Mask(3) == 7 && Mask(4) == 15;
    assert Mask(5) == 31 && Mask(6) == 63 && Mask(7) == 127 && Mask(8) == 255;
  }

  lemma WordPush(b: nat)
    ensures Word(b) == Push(b % 2 == 1, Word(b / 2))
  {
    assert Push(false, 0) == 0;
  }

  lemma {:induction false} WordInjective(x: nat, y: nat, n: nat)
    requires n <= 8 && x < Pow2(n) && y < Pow2(n) && Word(x) == Word(y)
    ensures x == y
  {
    hide Push, And, Word;
    if n > 0 {
      WordPush(x);
      WordPush(y);
      WordFits(x / 2, n - 1);
      WordFits(y / 2, n - 1);
      SmallMask(n - 1);
      PushInjective(x % 2 == 1, Word(x / 2), y % 2 == 1, Word(y / 2), Mask(n - 1));
      WordInjective(x / 2, y / 2, n - 1);
    }
  }

  lemma XorUndone(c: bv32, w: bv32)
    ensures Xor(Xor(c, w), w) == c && Xor(c, Xor(c, w)) == w
  {
  }

  lemma XorInjective(c: bv32, d: bv32, w: bv32, u: bv32)
    ensures Xor(c, w) == Xor(d, w) ==> c == d
    ensures Xor(c, w) == Xor(c, u) ==> w == u
  {
    hide Xor;
    XorUndone(c, w);
    XorUndone(d, w);
    XorUndone(c, u);
  }

  lemma Restored(c: bv32)
    ensures (c as int) as bv32 == c
  {
  }

  lemma FinishInjective(c: bv32, d: bv32)
    requires CrcFinish(c) == CrcFinish(d)
    ensures c == d
  {
    Restored(c ^ 0xFFFFFFFF);
    Restored(d ^ 0xFFFFFFFF);
  }

  /** One step of the register can be undone: a bit leaving at the bottom shows at the top. */
  lemma BitInjective(c: bv32, d: bv32)
    requires CrcBit(c) == CrcBit(d)
    ensures c == d
  {
  }

  lemma BitsInjective(c: bv32, d: bv32)
    requires CrcBits(c) == CrcBits(d)
    ensures c == d
  {
    hide CrcBit;
    var c1, d1 := CrcBit(c), CrcBit(d);
    var c2, d2 := CrcBit(c1), CrcBit(d1);
    var c3, d3 := CrcBit(c2), CrcBit(d2);
    var c4, d4 := CrcBit(c3), CrcBit(d3);
    var c5, d5 := CrcBit(c4), CrcBit(d4);
    var c6, d6 := CrcBit(c5), CrcBit(d5);
    var c7, d7 := CrcBit(c6), CrcBit(d6);
    BitInjective(c7, d7);
    BitInjective(c6, d6);
    BitInjective(c5, d5);
    BitInjective(c4, d4);
    BitInjective(c3, d3);
    BitInjective(c2, d2);
    BitInjective(c1, d1);
    BitInjective(c, d);
  }

  /** Feeding the same bytes keeps different registers different. */
  lemma {:induction false} UpdateInjective(c: bv32, d: bv32, bs: seq<Byte>)
    requires CrcUpdate(c, bs) == CrcUpdate(d, bs)
    ensures c == d
  {
    hide CrcBits, Xor, Word;
    if bs != [] {
      var front, last := bs[..|bs| - 1], bs[|bs| - 1];
      BitsInjective(Xor(CrcUpdate(c, front), Word(last)), Xor(CrcUpdate(d, front), Word(last)));
      XorInjective(CrcUpdate(c, front), CrcUpdate(d, front), Word(last), 0);
      UpdateInjective(c, d, front);
    }
  }

  lemma ByteInjective(c: bv32, x: Byte, y: Byte)
    requires CrcByte(c, x) == CrcByte(c, y)
    ensures x == y
  {
    hide CrcBits, Xor, Word;
    BitsInjective(Xor(c, Word(x)), Xor(c, Word(y)));
    XorInjective(c, c, Word(x), Word(y));
    assert Pow2(8) == 256;
    WordInjective(x, y, 8);
  }

  lemma CrcSnoc(c: bv32, bs: seq<Byte>, b: Byte)
    ensures CrcUpdate(c, bs + [b]) == CrcByte(CrcUpdate(c, bs), b)
  {
    hide CrcByte;
    assert (bs + [b])[..|bs|] == bs;
  }

  /** Messages that differ in one byte have different checksums. */
  lemma OneByteDetected(a: seq<Byte>, x: Byte, y: Byte, c: seq<Byte>)
    requires x != y
    ensures Crc32(a + [x] + c) != Crc32(a + [y] + c)
  {
    hide CrcByte, CrcFinish, CrcUpdate;
    var r, s := CrcUpdate(CRC_START, a + [x]), CrcUpdate(CRC_START, a + [y]);
    CrcSnoc(CRC_START, a, x);
    CrcSnoc(CRC_START, a, y);
    CrcStreams(CRC_START, a + [x], c);
    CrcStreams(CRC_START, a + [y], c);
    if Crc32(a + [x] + c) == Crc32(a + [y] + c) {
      FinishInjective(CrcUpdate(r, c), CrcUpdate(s, c));
      UpdateInjective(r, s, c);
      ByteInjective(CrcUpdate(CRC_START, a), x, y);
    }
  }

  // ---------------------------------------------------------------- checksums of given bytes

  function Zeros(n: nat): (bs: seq<Byte>)
    ensures |bs| == n && forall i :: 0 <= i < n ==> bs[i] == 0
  {
    seq(n, _ => 0)
  }

  /** The register after n zero bytes. */
  function Advance(c: bv32, n: nat): (r: bv32)
    decreases n
  {
    if n == 0 then c else Advance(CrcBits(c), n - 1)
  }

  lemma {:induction false} AdvanceSplit(c: bv32, m: nat, n: nat)
    ensures Advance(c, m + n) == Advance(Advance(c, m), n)
    decreases m
  {
    hide CrcBits;
    if m > 0 {
      AdvanceSplit(CrcBits(c), m - 1, n);
    }
  }

  lemma NoByte(c: bv32)
    ensures CrcByte(c, 0) == CrcBits(c)
  {
    hide CrcBits;
  }

  lemma {:induction false} FeedZeros(c: bv32, n: nat)
    ensures CrcUpdate(c, Zeros(n)) == Advance(c, n)
  {
    hide CrcBits, CrcByte;
    if n > 0 {
      FeedZeros(c, n - 1);
      assert Zeros(n)[..n - 1] == Zeros(n - 1);
      NoByte(CrcUpdate(c, Zeros(n - 1)));
      AdvanceSplit(c, n - 1, 1);
    }
  }
}
