/** Well-formed UTF-8 (Unicode Standard, table 3-7): what the string decoders accept. */
module Utf8 {
  import opened Bytes

  predicate Tail(b: Byte) {
    0x80 <= b <= 0xBF
  }

  /** The length of the well-formed character at the start of s, or 0. */
  function CharLength(s: seq<Byte>): (n: nat)
    ensures n <= |s| && n <= 4
  {
    if s == [] then 0
    else if s[0] <= 0x7F then 1
    else if 0xC2 <= s[0] <= 0xDF && |s| >= 2 && Tail(s[1]) then 2
    else if |s| >= 3 && Tail(s[1]) && Tail(s[2])
      && (|| (s[0] == 0xE0 && s[1] >= 0xA0)
          || (s[0] == 0xED && s[1] <= 0x9F)
          || (0xE1 <= s[0] <= 0xEF && s[0] != 0xED)) then 3
    else if |s| >= 4 && Tail(s[1]) && Tail(s[2]) && Tail(s[3])
      && (|| (s[0] == 0xF0 && s[1] >= 0x90)
          || (s[0] == 0xF4 && s[1] <= 0x8F)
          || 0xF1 <= s[0] <= 0xF3) then 4
    else 0
  }

  predicate ValidUtf8(s: seq<Byte>) {
    s == [] || (CharLength(s) > 0 && ValidUtf8(s[CharLength(s)..]))
  }
}
