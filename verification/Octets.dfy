/** Bytes, and numbers in network byte order. */
module Octets {
  type Byte = x: int | 0 <= x < 0x100

  function Power(n: nat): (p: nat)
    ensures p > 0
  {
    if n == 0 then 1 else 0x100 * Power(n - 1)
  }

  function BigEndian(value: nat, bytes: nat): (r: seq<Byte>)
    ensures |r| == bytes
  {
    if bytes == 0 then [] else BigEndian(value / 0x100, bytes - 1) + [value % 0x100]
  }

  function FromBigEndian(s: seq<Byte>): nat {
    if s == [] then 0 else FromBigEndian(s[..|s| - 1]) * 0x100 + s[|s| - 1]
  }

  lemma {:induction false} BigEndianRoundTrip(value: nat, bytes: nat)
    requires value < Power(bytes)
    ensures FromBigEndian(BigEndian(value, bytes)) == value
  {
    if bytes > 0 {
      BigEndianRoundTrip(value / 0x100, bytes - 1);
      assert BigEndian(value, bytes)[..bytes - 1] == BigEndian(value / 0x100, bytes - 1);
    }
  }

  function Flatten(parts: seq<seq<Byte>>): seq<Byte> {
    if parts == [] then [] else parts[0] + Flatten(parts[1..])
  }

  lemma {:induction false} FlattenAppend(parts: seq<seq<Byte>>, m: seq<Byte>)
    ensures Flatten(parts + [m]) == Flatten(parts) + m
  {
    if parts == [] {
      assert parts + [m] == [m];
      assert m + [] == m;
    } else {
      assert (parts + [m])[1..] == parts[1..] + [m];
      FlattenAppend(parts[1..], m);
      assert parts[0] + (Flatten(parts[1..]) + m) == Flatten(parts) + m;
    }
  }
}
