/** Fixed-width integers and the byte-order helpers shared by every codec of the system. */
module Bytes {
  type Byte = x: int | 0 <= x < 0x100
  type U24 = x: int | 0 <= x < 0x100_0000
  type U32 = x: int | 0 <= x < 0x1_0000_0000
  type U64 = x: int | 0 <= x < 0x1_0000_0000_0000_0000

  function Add32(a: U32, b: U32): U32 { (a + b) % 0x1_0000_0000 }

  function Add64(a: U64, b: U64): U64 { (a + b) % 0x1_0000_0000_0000_0000 }

  function Min(a: int, b: int): int { if a <= b then a else b }

  // Writers: each byte is the value shifted and truncated to eight bits.

  function WriteU16BE(v: U32): (s: seq<Byte>)
    ensures |s| == 2
  {
    [v / 0x100 % 0x100, v % 0x100]
  }

  function WriteU24BE(v: U32): (s: seq<Byte>)
    ensures |s| == 3
  {
    [v / 0x1_0000 % 0x100, v / 0x100 % 0x100, v % 0x100]
  }

  function WriteU32BE(v: U32): (s: seq<Byte>)
    ensures |s| == 4
  {
    [v / 0x100_0000, v / 0x1_0000 % 0x100, v / 0x100 % 0x100, v % 0x100]
  }

  function WriteU32LE(v: U32): (s: seq<Byte>)
    ensures |s| == 4
  {
    [v % 0x100, v / 0x100 % 0x100, v / 0x1_0000 % 0x100, v / 0x100_0000]
  }

  // Readers take the position of the first byte.

  function ReadU16BE(s: seq<Byte>, at: nat): (v: int)
    requires at + 2 <= |s|
    ensures 0 <= v < 0x1_0000
  {
    s[at] as int * 0x100 + s[at + 1]
  }

  function ReadU24BE(s: seq<Byte>, at: nat): U24
    requires at + 3 <= |s|
  {
    s[at] as int * 0x1_0000 + s[at + 1] as int * 0x100 + s[at + 2]
  }

  function ReadU32BE(s: seq<Byte>, at: nat): U32
    requires at + 4 <= |s|
  {
    s[at] as int * 0x100_0000 + s[at + 1] as int * 0x1_0000 + s[at + 2] as int * 0x100 + s[at + 3]
  }

  function ReadU32LE(s: seq<Byte>, at: nat): U32
    requires at + 4 <= |s|
  {
    s[at + 3] as int * 0x100_0000 + s[at + 2] as int * 0x1_0000 + s[at + 1] as int * 0x100 + s[at]
  }

  /** A 32-bit value is the sum of its four bytes. */
  lemma FourBytes(v: U32)
    ensures v == v / 0x100_0000 * 0x100_0000 + v / 0x1_0000 % 0x100 * 0x1_0000 + v / 0x100 % 0x100 * 0x100 + v % 0x100
  {
    var a := v / 0x100;
    var b := v / 0x1_0000;
    assert b == a / 0x100;
    assert v / 0x100_0000 == b / 0x100;
  }

  /** The bytes `w` lie in `s` from position `at` on. */
  ghost predicate Holds(s: seq<Byte>, at: nat, w: seq<Byte>) {
    at + |w| <= |s| && forall i :: 0 <= i < |w| ==> s[at + i] == w[i]
  }

  lemma HoldsParts(s: seq<Byte>, at: nat, a: seq<Byte>, b: seq<Byte>)
    requires Holds(s, at, a + b)
    ensures Holds(s, at, a) && Holds(s, at + |a|, b) && at + |a| + |b| <= |s|
  {
    var w := a + b;
    assert forall i :: 0 <= i < |a| ==> w[i] == a[i];
    forall i | 0 <= i < |b|
      ensures s[at + |a| + i] == b[i]
    {
      assert w[|a| + i] == b[i];
      assert s[at + (|a| + i)] == w[|a| + i];
    }
  }

  // Each reader undoes its writer, wherever the bytes lie in a longer sequence.

  lemma U16BERoundTrip(s: seq<Byte>, at: nat, v: U32)
    requires Holds(s, at, WriteU16BE(v))
    ensures ReadU16BE(s, at) == v % 0x1_0000
  {
    var w := WriteU16BE(v);
    assert s[at + 0] == w[0] && s[at + 1] == w[1];
    assert v % 0x1_0000 == v / 0x100 % 0x100 * 0x100 + v % 0x100 by { FourBytes(v); }
  }

  lemma U24BERoundTrip(s: seq<Byte>, at: nat, v: U32)
    requires Holds(s, at, WriteU24BE(v))
    ensures ReadU24BE(s, at) == v % 0x100_0000
  {
    var w := WriteU24BE(v);
    assert s[at + 0] == w[0] && s[at + 1] == w[1] && s[at + 2] == w[2];
    FourBytes(v);
  }

  lemma U32BERoundTrip(s: seq<Byte>, at: nat, v: U32)
    requires Holds(s, at, WriteU32BE(v))
    ensures ReadU32BE(s, at) == v
  {
    var w := WriteU32BE(v);
    assert s[at + 0] == w[0] && s[at + 1] == w[1] && s[at + 2] == w[2] && s[at + 3] == w[3];
    FourBytes(v);
  }

  lemma U32LERoundTrip(s: seq<Byte>, at: nat, v: U32)
    requires Holds(s, at, WriteU32LE(v))
    ensures ReadU32LE(s, at) == v
  {
    var w := WriteU32LE(v);
    assert s[at + 0] == w[0] && s[at + 1] == w[1] && s[at + 2] == w[2] && s[at + 3] == w[3];
    FourBytes(v);
  }
}
