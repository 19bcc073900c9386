// Little-endian integers as they lie in files: every field of every record on disk is built from these.
module Bytes {
  /** A byte holds 0..255; what is written below never leaves that range. */
  type Byte = int

  ghost predicate AreBytes(s: seq<Byte>) {
    forall i :: 0 <= i < |s| ==> 0 <= s[i] < 256
  }

  function U16(x: nat): (r: seq<Byte>)
    requires x < 0x1_0000
    ensures |r| == 2 && AreBytes(r)
  {
    [x % 256, x / 256]
  }

  function U32(x: nat): (r: seq<Byte>)
    requires x < 0x1_0000_0000
    ensures |r| == 4 && AreBytes(r)
  {
    [x % 256, x / 256 % 256, x / 65536 % 256, x / 16777216]
  }

  function U64(x: nat): (r: seq<Byte>)
    requires x < 0x1_0000_0000_0000_0000
    ensures |r| == 8 && AreBytes(r)
  {
    U32(x % 0x1_0000_0000) + U32(x / 0x1_0000_0000)
  }

  function Get16(s: seq<Byte>): int
    requires |s| >= 2
  {
    s[0] + 256 * s[1]
  }

  function Get32(s: seq<Byte>): int
    requires |s| >= 4
  {
    s[0] + 256 * s[1] + 65536 * s[2] + 16777216 * s[3]
  }

  function Get64(s: seq<Byte>): int
    requires |s| >= 8
  {
    Get32(s) + 0x1_0000_0000 * Get32(s[4..])
  }

  lemma Get16U16(x: nat, rest: seq<Byte>)
    requires x < 0x1_0000
    ensures Get16(U16(x) + rest) == x && (U16(x) + rest)[2..] == rest
  {
  }

  lemma Get32U32(x: nat, rest: seq<Byte>)
    requires x < 0x1_0000_0000
    ensures Get32(U32(x) + rest) == x && (U32(x) + rest)[4..] == rest
  {
    assert x / 256 == 256 * (x / 65536) + x / 256 % 256;
    assert x / 65536 == 256 * (x / 16777216) + x / 65536 % 256;
  }

  lemma Get64U64(x: nat, rest: seq<Byte>)
    requires x < 0x1_0000_0000_0000_0000
    ensures Get64(U64(x) + rest) == x && (U64(x) + rest)[8..] == rest
  {
    var lo, hi := x % 0x1_0000_0000, x / 0x1_0000_0000;
    assert U64(x) + rest == U32(lo) + (U32(hi) + rest);
    Get32U32(lo, U32(hi) + rest);
    Get32U32(hi, rest);
  }
}
