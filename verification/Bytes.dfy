/** Octets and big-endian fields, shared by every wire format in the project. */
module Bytes {

  type Byte = x: int | 0 <= x < 256

  type U16 = x: int | 0 <= x < 0x1_0000

  type U32 = x: int | 0 <= x < 0x1_0000_0000

  function ReadU16(hi: Byte, lo: Byte): (v: U16) {
    hi * 256 + lo
  }

  function PutU16(v: U16): (s: seq<Byte>)
    ensures |s| == 2 && ReadU16(s[0], s[1]) == v
  {
    [v / 256, v % 256]
  }

  function ReadU32(a: int, b: int, c: int, d: int): int {
    ((a * 256 + b) * 256 + c) * 256 + d
  }

  function PutU32(v: U32): (s: seq<Byte>)
    ensures |s| == 4 && ReadU32(s[0], s[1], s[2], s[3]) == v
  {
    var v1 := v / 256;
    var v2 := v1 / 256;
    [v2 / 256, v2 % 256, v1 % 256, v % 256]
  }

  /** The C string that starts the buffer s: everything before the first NUL. */
  function CString(s: seq<Byte>): (r: seq<Byte>)
    ensures r <= s && 0 !in r
    ensures |r| < |s| ==> s[|r|] == 0
    ensures 0 !in s ==> r == s
  {
    if s == [] || s[0] == 0 then [] else [s[0]] + CString(s[1..])
  }
}
