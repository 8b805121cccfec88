/** Octets, and numbers in network byte order. */
module Octets {
  import opened Prelude

  type byte = n: int | 0 <= n < 0x100
  type u16 = n: int | 0 <= n < 0x1_0000
  type u32 = n: int | 0 <= n < 0x1_0000_0000
  type u64 = n: int | 0 <= n < 0x1_0000_0000_0000_0000

  function Zeros(n: nat): (r: seq<byte>)
    ensures |r| == n && forall i :: 0 <= i < n ==> r[i] == 0
  {
    seq(n, _ => 0)
  }

  function U16Octets(n: u16): (r: seq<byte>)
    ensures |r| == 2
  {
    [n / 0x100, n % 0x100]
  }

  function OctetsU16(s: seq<byte>): u16
    requires |s| == 2
  {
    (s[0] as int) * 0x100 + s[1]
  }

  function U32Octets(n: u32): (r: seq<byte>)
    ensures |r| == 4
  {
    U16Octets(n / 0x1_0000) + U16Octets(n % 0x1_0000)
  }

  function OctetsU32(s: seq<byte>): u32
    requires |s| == 4
  {
    OctetsU16(s[..2]) * 0x1_0000 + OctetsU16(s[2..])
  }

  /** Three octets, as the header of a message writes them by masking and shifting. */
  function U24Octets(n: nat): (r: seq<byte>)
    requires n < 0x100_0000
    ensures |r| == 3
  {
    [n / 0x1_0000, n / 0x100 % 0x100, n % 0x100]
  }

  function OctetsU24(s: seq<byte>): nat
    requires |s| == 3
  {
    (s[0] as int) * 0x1_0000 + (s[1] as int) * 0x100 + s[2]
  }

  lemma U16RoundTrip(n: u16)
    ensures OctetsU16(U16Octets(n)) == n
  {}

  lemma U32RoundTrip(n: u32)
    ensures OctetsU32(U32Octets(n)) == n
  {
    assert U32Octets(n)[..2] == U16Octets(n / 0x1_0000);
    assert U32Octets(n)[2..] == U16Octets(n % 0x1_0000);
  }

  lemma U24RoundTrip(n: nat)
    requires n < 0x100_0000
    ensures OctetsU24(U24Octets(n)) == n
  {}

  /** The octets `n` from position `i`, if there are so many. */
  function Get(s: seq<byte>, i: nat, n: nat): (r: Option<seq<byte>>)
    ensures r.Some? <==> i + n <= |s|
    ensures r.Some? ==> |r.value| == n
  {
    if i + n <= |s| then Some(s[i..i + n]) else None
  }
}
