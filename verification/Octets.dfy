/** Byte strings and the big-endian integer fields of `struct.pack`. */
module Octets {

  type Byte = x: int | 0 <= x < 0x100
  type Bytes = seq<Byte>
  type U16 = x: int | 0 <= x < 0x1_0000
  type U32 = x: int | 0 <= x < 0x1_0000_0000

  function Min(a: nat, b: nat): nat {
    if a < b then a else b
  }

  function PackU16(x: U16): (s: Bytes)
    ensures |s| == 2 && UnpackU16(s) == x
  {
    [x / 0x100, x % 0x100]
  }

  function UnpackU16(s: Bytes): U16
    requires |s| == 2
  {
    var high: int := s[0];
    high * 0x100 + s[1]
  }

  function PackU32(x: U32): (s: Bytes)
    ensures |s| == 4 && UnpackU32(s) == x
  {
    PackU16(x / 0x1_0000) + PackU16(x % 0x1_0000)
  }

  function UnpackU32(s: Bytes): U32
    requires |s| == 4
  {
    var high: int := UnpackU16(s[..2]);
    high * 0x1_0000 + UnpackU16(s[2..])
  }

  /** Unpacking loses nothing: distinct field bytes denote distinct integers. */
  lemma PackUnpackU16(s: Bytes)
    requires |s| == 2
    ensures PackU16(UnpackU16(s)) == s
  {
  }

  lemma SplitWord(high: nat, low: nat)
    requires low < 0x1_0000
    ensures (high * 0x1_0000 + low) / 0x1_0000 == high && (high * 0x1_0000 + low) % 0x1_0000 == low
  {
  }

  lemma PackUnpackU32(s: Bytes)
    requires |s| == 4
    ensures PackU32(UnpackU32(s)) == s
  {
    SplitWord(UnpackU16(s[..2]), UnpackU16(s[2..]));
    PackUnpackU16(s[..2]);
    PackUnpackU16(s[2..]);
    assert s == s[..2] + s[2..];
  }

  /** The number some bytes spell, most significant first. */
  function Number(s: Bytes): nat {
    if s == [] then 0 else Number(s[..|s| - 1]) * 0x100 + s[|s| - 1]
  }

  /** Fields are big-endian. */
  lemma UnpackU16IsNumber(s: Bytes)
    requires |s| == 2
    ensures UnpackU16(s) == Number(s)
  {
    assert s[..1][..0] == [] && s[..1][0] == s[0];
    assert Number(s[..1]) == s[0];
  }

  lemma UnpackU32IsNumber(s: Bytes)
    requires |s| == 4
    ensures UnpackU32(s) == Number(s)
  {
    var s3, s2 := s[..3], s[..2];
    assert s3[..2] == s2;
    UnpackU16IsNumber(s2);
    assert Number(s3) == Number(s2) * 0x100 + s[2];
    assert s[2..][0] == s[2] && s[2..][1] == s[3];
  }

  /** `s[a:b]` for non-negative bounds: Python clamps both to the length. */
  function Slice(s: Bytes, a: nat, b: nat): Bytes
    requires a <= b
  {
    s[Min(a, |s|)..Min(b, |s|)]
  }

  /** `b"".join(parts)`: the byte stream that consecutive writes produce. */
  function Join(parts: seq<Bytes>): Bytes {
    if parts == [] then [] else parts[0] + Join(parts[1..])
  }

  lemma {:induction false} JoinAppend(a: seq<Bytes>, b: seq<Bytes>)
    ensures Join(a + b) == Join(a) + Join(b)
  {
    if a == [] {
      assert a + b == b;
    } else {
      assert (a + b)[1..] == a[1..] + b;
      JoinAppend(a[1..], b);
    }
  }
}
