/** Well-formed UTF-8 is exactly what encoding Unicode scalar values gives. */
module Utf8Chars {
  import opened Bytes
  import opened Utf8

  /** A Unicode scalar value: a code point that is not a surrogate. */
  type Scalar = c: int | 0 <= c < 0x11_0000 && !(0xD800 <= c < 0xE000)

  /** The bytes of one scalar value: its bits in groups of six behind a byte that tells their number. */
  function EncodeChar(c: Scalar): (bs: seq<Byte>)
    ensures 1 <= |bs| <= 4
  {
    if c < 0x80 then [c]
    else if c < 0x800 then [0xC0 + c / 0x40, 0x80 + c % 0x40]
    else if c < 0x1_0000 then [0xE0 + c / 0x1000, 0x80 + c / 0x40 % 0x40, 0x80 + c % 0x40]
    else [0xF0 + c / 0x4_0000, 0x80 + c / 0x1000 % 0x40, 0x80 + c / 0x40 % 0x40, 0x80 + c % 0x40]
  }

  function EncodeChars(cs: seq<Scalar>): (bs: seq<Byte>) {
    if cs == [] then [] else EncodeChar(cs[0]) + EncodeChars(cs[1..])
  }

  ghost predicate IsText(s: seq<Byte>) {
    exists cs: seq<Scalar> :: EncodeChars(cs) == s
  }

  lemma CharIsValid(c: Scalar, rest: seq<Byte>)
    ensures CharLength(EncodeChar(c) + rest) == |EncodeChar(c)|
  {
    var s := EncodeChar(c) + rest;
    if c < 0x80 {
    } else if c < 0x800 {
      assert 2 <= c / 0x40 < 0x20;
    } else if c < 0x1_0000 {
      ThreeBytes(c, c / 0x1000, c / 0x40 % 0x40, c % 0x40);
    } else {
      FourBytes(c, c / 0x4_0000, c / 0x1000 % 0x40, c / 0x40 % 0x40, c % 0x40);
    }
  }

  lemma ThreeBytes(c: Scalar, x: nat, y: nat, z: nat)
    requires 0x800 <= c < 0x1_0000 && x == c / 0x1000 && y == c / 0x40 % 0x40 && z == c % 0x40
    ensures x < 0x10 && (x == 0 ==> y >= 0x20) && (x == 0xD ==> y < 0x20)
  {
    assert c == x * 0x1000 + y * 0x40 + z;
  }

  lemma FourBytes(c: Scalar, w: nat, x: nat, y: nat, z: nat)
    requires c >= 0x1_0000 && w == c / 0x4_0000 && x == c / 0x1000 % 0x40 && y == c / 0x40 % 0x40 && z == c % 0x40
    ensures w <= 4 && (w == 0 ==> x >= 0x10) && (w == 4 ==> x < 0x10)
  {
    assert c == w * 0x4_0000 + x * 0x1000 + y * 0x40 + z;
  }

  lemma TwoGroups(x: nat, y: nat) returns (c: Scalar)
    requires 2 <= x < 0x20 && y < 0x40
    ensures EncodeChar(c) == [0xC0 + x, 0x80 + y]
  {
    c := x * 0x40 + y;
    assert c / 0x40 == x && c % 0x40 == y;
  }

  lemma ThreeGroups(x: nat, y: nat, z: nat) returns (c: Scalar)
    requires x < 0x10 && y < 0x40 && z < 0x40 && (x == 0 ==> y >= 0x20) && (x == 0xD ==> y < 0x20)
    ensures EncodeChar(c) == [0xE0 + x, 0x80 + y, 0x80 + z]
  {
    var v := x * 0x1000 + y * 0x40 + z;
    Groups(x * 0x40 + y, z);
    Groups(x, y);
    assert v == (x * 0x40 + y) * 0x40 + z && v / 0x1000 == x;
    c := v;
  }

  lemma FourGroups(w: nat, x: nat, y: nat, z: nat) returns (c: Scalar)
    requires w <= 4 && x < 0x40 && y < 0x40 && z < 0x40 && (w == 0 ==> x >= 0x10) && (w == 4 ==> x < 0x10)
    ensures EncodeChar(c) == [0xF0 + w, 0x80 + x, 0x80 + y, 0x80 + z]
  {
    var v := w * 0x4_0000 + x * 0x1000 + y * 0x40 + z;
    Groups((w * 0x40 + x) * 0x40 + y, z);
    Groups(w * 0x40 + x, y);
    Groups(w, x);
    assert v == ((w * 0x40 + x) * 0x40 + y) * 0x40 + z;
    assert v / 0x1000 == w * 0x40 + x && v / 0x4_0000 == w;
    c := v;
  }

  lemma Groups(a: nat, b: nat)
    requires b < 0x40
    ensures (a * 0x40 + b) / 0x40 == a && (a * 0x40 + b) % 0x40 == b
  {
  }

  /** Every well-formed character is the encoding of a scalar value. */
  lemma ValidIsChar(s: seq<Byte>) returns (c: Scalar)
    requires s != [] && CharLength(s) > 0
    ensures EncodeChar(c) == s[..CharLength(s)]
  {
    hide EncodeChar;
    match CharLength(s)
    case 1 => c := OneGroup(s[0]);
    case 2 => c := TwoGroups(s[0] - 0xC0, s[1] - 0x80);
    case 3 => c := ThreeGroups(s[0] - 0xE0, s[1] - 0x80, s[2] - 0x80);
    case _ => c := FourGroups(s[0] - 0xF0, s[1] - 0x80, s[2] - 0x80, s[3] - 0x80);
  }

  lemma OneGroup(b: Byte) returns (c: Scalar)
    requires b < 0x80
    ensures EncodeChar(c) == [b]
  {
    c := b;
  }

  lemma {:induction false} EncodedIsValid(cs: seq<Scalar>)
    ensures ValidUtf8(EncodeChars(cs))
  {
    hide EncodeChar, CharLength;
    if cs != [] {
      EncodedIsValid(cs[1..]);
      var s := EncodeChars(cs);
      CharIsValid(cs[0], EncodeChars(cs[1..]));
      assert s[|EncodeChar(cs[0])|..] == EncodeChars(cs[1..]);
    }
  }

  lemma {:induction false} ValidIsEncoded(s: seq<Byte>) returns (cs: seq<Scalar>)
    requires ValidUtf8(s)
    ensures EncodeChars(cs) == s
    decreases |s|
  {
    hide EncodeChar, CharLength;
    cs := [];
    if s != [] {
      var n := CharLength(s);
      var c := ValidIsChar(s);
      var more := ValidIsEncoded(s[n..]);
      cs := [c] + more;
      assert cs[1..] == more && s == s[..n] + s[n..];
    }
  }

  /** The strings that decoders accept are exactly the encodings of sequences of scalar values. */
  lemma ValidExactly(s: seq<Byte>)
    ensures ValidUtf8(s) <==> IsText(s)
  {
    hide EncodeChars, ValidUtf8;
    if ValidUtf8(s) {
      var cs := ValidIsEncoded(s);
    }
    if cs: seq<Scalar> :| EncodeChars(cs) == s {
      EncodedIsValid(cs);
    }
  }

  /** A string stands for one sequence of scalar values only. */
  lemma {:induction false} OneReading(cs: seq<Scalar>, ds: seq<Scalar>)
    requires EncodeChars(cs) == EncodeChars(ds)
    ensures cs == ds
  {
    hide EncodeChar, CharLength;
    if cs != [] && ds != [] {
      CharIsValid(cs[0], EncodeChars(cs[1..]));
      CharIsValid(ds[0], EncodeChars(ds[1..]));
      var s, n := EncodeChars(cs), |EncodeChar(cs[0])|;
      assert s[..n] == EncodeChar(cs[0]) && s[..n] == EncodeChar(ds[0]);
      assert s[n..] == EncodeChars(cs[1..]) && s[n..] == EncodeChars(ds[1..]);
      OneChar(cs[0], ds[0]);
      OneReading(cs[1..], ds[1..]);
      assert cs == [cs[0]] + cs[1..] && ds == [ds[0]] + ds[1..];
    }
  }

  lemma OneChar(c: Scalar, d: Scalar)
    requires EncodeChar(c) == EncodeChar(d)
    ensures c == d
  {
    if c >= 0x1_0000 {
      assert d >= 0x1_0000;
      Parts(c);
      Parts(d);
    } else if c >= 0x800 {
      assert 0x800 <= d < 0x1_0000;
      Parts(c);
      Parts(d);
    }
  }

  lemma Parts(c: nat)
    ensures c == c / 0x1000 * 0x1000 + c / 0x40 % 0x40 * 0x40 + c % 0x40
    ensures c / 0x1000 == c / 0x4_0000 * 0x40 + c / 0x1000 % 0x40
  {
  }
}
