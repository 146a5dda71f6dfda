/** Fixed-width integers as bytes, in both byte orders. */
module Encoding {
  import opened Bytes

  type U32 = x: int | 0 <= x < 0x1_0000_0000

  type I8 = x: int | -0x80 <= x < 0x80
  type I16 = x: int | -0x8000 <= x < 0x8000
  type I32 = x: int | -0x8000_0000 <= x < 0x8000_0000
  type I64 = x: int | -0x8000_0000_0000_0000 <= x < 0x8000_0000_0000_0000

  /** 256 to the n: how many values n bytes hold. */
  function Pow256(n: nat): (p: nat)
    ensures p >= 1
  {
    if n == 0 then 1 else 256 * Pow256(n - 1)
  }

  lemma Powers()
    ensures Pow256(1) == 0x100 && Pow256(2) == 0x1_0000 && Pow256(4) == 0x1_0000_0000
    ensures Pow256(8) == 0x1_0000_0000_0000_0000
  {
    assert Pow256(2) == 256 * Pow256(1) && Pow256(3) == 256 * Pow256(2) && Pow256(4) == 256 * Pow256(3);
    assert Pow256(5) == 256 * Pow256(4) && Pow256(6) == 256 * Pow256(5);
    assert Pow256(7) == 256 * Pow256(6) && Pow256(8) == 256 * Pow256(7);
  }

  lemma {:induction false} PowersGrow(a: nat, b: nat)
    requires a <= b
    ensures Pow256(a) <= Pow256(b)
  {
    if a < b {
      PowersGrow(a, b - 1);
    }
  }

  // ---------------------------------------------------------------- little endian

  /** The low `width` bytes of n, lowest first. */
  function ToLe(n: nat, width: nat): (bs: seq<Byte>)
    ensures |bs| == width
  {
    if width == 0 then [] else [n % 256] + ToLe(n / 256, width - 1)
  }

  function FromLe(bs: seq<Byte>): (n: nat) {
    if bs == [] then 0 else bs[0] as nat + 256 * FromLe(bs[1..])
  }

  lemma {:induction false} LeRoundTrip(n: nat, width: nat)
    requires n < Pow256(width)
    ensures FromLe(ToLe(n, width)) == n
  {
    if width > 0 {
      LeRoundTrip(n / 256, width - 1);
      assert ToLe(n, width)[1..] == ToLe(n / 256, width - 1);
    }
  }

  lemma {:induction false} LeBounded(bs: seq<Byte>)
    ensures FromLe(bs) < Pow256(|bs|)
  {
    if bs != [] {
      LeBounded(bs[1..]);
    }
  }

  /** Writing the number that some bytes hold gives these bytes. */
  lemma {:induction false} LeInverse(bs: seq<Byte>)
    ensures ToLe(FromLe(bs), |bs|) == bs
  {
    if bs != [] {
      var rest := bs[1..];
      LeInverse(rest);
      LowByte(bs[0], FromLe(rest));
      assert ToLe(FromLe(bs), |bs|) == [bs[0]] + ToLe(FromLe(rest), |rest|);
    }
  }

  lemma LowByte(b: Byte, n: nat)
    ensures (b + 256 * n) % 256 == b && (b + 256 * n) / 256 == n
  {
  }

  // ---------------------------------------------------------------- big endian

  /** The low `width` bytes of n, highest first. */
  function ToBe(n: nat, width: nat): (bs: seq<Byte>)
    ensures |bs| == width
  {
    if width == 0 then [] else ToBe(n / 256, width - 1) + [n % 256]
  }

  function FromBe(bs: seq<Byte>): (n: nat) {
    if bs == [] then 0 else 256 * FromBe(bs[..|bs| - 1]) + bs[|bs| - 1] as nat
  }

  lemma {:induction false} BeRoundTrip(n: nat, width: nat)
    requires n < Pow256(width)
    ensures FromBe(ToBe(n, width)) == n
  {
    if width > 0 {
      BeRoundTrip(n / 256, width - 1);
      assert ToBe(n, width)[..width - 1] == ToBe(n / 256, width - 1);
    }
  }

  lemma {:induction false} BeBounded(bs: seq<Byte>)
    ensures FromBe(bs) < Pow256(|bs|)
  {
    if bs != [] {
      BeBounded(bs[..|bs| - 1]);
    }
  }

  // ---------------------------------------------------------------- two's complement

  /** A signed integer of `width` bytes as its unsigned bit pattern. */
  function ToUnsigned(i: int, width: nat): (n: nat)
    requires 0 <= i + Pow256(width) && i < Pow256(width)
    ensures n < Pow256(width)
  {
    if i < 0 then i + Pow256(width) else i
  }

  function ToSigned(n: nat, width: nat): (i: int) {
    if 2 * n < Pow256(width) then n else n - Pow256(width)
  }

  predicate FitsSigned(i: int, width: nat) {
    0 <= 2 * i + Pow256(width) && 2 * i < Pow256(width)
  }

  lemma SignedRoundTrip(i: int, width: nat)
    requires FitsSigned(i, width)
    ensures ToSigned(ToUnsigned(i, width), width) == i
  {
  }
}
