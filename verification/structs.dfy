/** Big-endian unsigned fields, as Python's `struct` packs and unpacks them, and slices. */
module Structs {
  import opened Bytes

  function U16(n: nat): (b: bytes)
    requires n < 0x1_0000
    ensures |b| == 2
  {
    [(n / 0x100) as byte, (n % 0x100) as byte]
  }

  function U32(n: nat): (b: bytes)
    requires n < 0x1_0000_0000
    ensures |b| == 4
  {
    U16(n / 0x1_0000) + U16(n % 0x1_0000)
  }

  function GetU16(b: bytes): (n: nat)
    requires |b| == 2
    ensures n < 0x1_0000
  {
    b[0] as nat * 0x100 + b[1] as nat
  }

  function GetU32(b: bytes): (n: nat)
    requires |b| == 4
    ensures n < 0x1_0000_0000
  {
    GetU16(b[..2]) * 0x1_0000 + GetU16(b[2..])
  }

  lemma U16RoundTrip(n: nat)
    requires n < 0x1_0000
    ensures GetU16(U16(n)) == n
  {}

  lemma U32RoundTrip(n: nat)
    requires n < 0x1_0000_0000
    ensures GetU32(U32(n)) == n
  {
    hide U16, GetU16;
    U16RoundTrip(n / 0x1_0000);
    U16RoundTrip(n % 0x1_0000);
    assert U32(n)[..2] == U16(n / 0x1_0000) && U32(n)[2..] == U16(n % 0x1_0000);
  }

  /** Most significant byte first. */
  lemma BigEndian(a: byte, b: byte, c: byte, d: byte)
    ensures U16(a as nat * 0x100 + b as nat) == [a, b]
    ensures U32(a as nat * 0x100_0000 + b as nat * 0x1_0000 + c as nat * 0x100 + d as nat) == [a, b, c, d]
  {
    hide GetU16, GetU32;
    var n := a as nat * 0x100_0000 + b as nat * 0x1_0000 + c as nat * 0x100 + d as nat;
    assert n / 0x1_0000 == a as nat * 0x100 + b as nat && n % 0x1_0000 == c as nat * 0x100 + d as nat;
    assert U16(n / 0x1_0000) == [a, b] && U16(n % 0x1_0000) == [c, d];
  }

  /** Python's s[lo:hi] for non-negative bounds: clamped, never an error. */
  function Slice<T>(s: seq<T>, lo: nat, hi: nat): (r: seq<T>)
    ensures lo <= hi <= |s| ==> r == s[lo..hi]
    ensures |r| <= |s|
  {
    var h := if hi <= |s| then hi else |s|;
    if lo <= h then s[lo..h] else []
  }

  /** Cutting a prefix of known length off a concatenation. */
  lemma SliceConcat<T>(a: seq<T>, b: seq<T>, c: seq<T>)
    ensures Slice(a + b + c, |a|, |a| + |b|) == b
    ensures (a + b + c)[|a| + |b|..] == c
  {
    assert (a + b + c)[|a|..|a| + |b|] == b;
  }
}
