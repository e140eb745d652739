/** Machine words and little-endian byte sequences. */
module Bytes {
  newtype byte = x: int | 0 <= x < 0x100

  const U16_LIMIT: nat := 0x1_0000
  const U32_LIMIT: nat := 0x1_0000_0000

  type u16 = x: nat | x < 0x1_0000
  type u32 = x: nat | x < 0x1_0000_0000

  /** A checksum over bytes. Nothing is assumed about it. */
  type Checksum = seq<byte> -> u32

  predicate AllErased(bytes: seq<byte>) {
    forall i :: 0 <= i < |bytes| ==> bytes[i] == 0xFF
  }

  function Erased(n: nat): (s: seq<byte>)
    ensures |s| == n && AllErased(s)
  {
    seq(n, i => 0xFF)
  }

  function U16ToLe(v: u16): (s: seq<byte>)
    ensures |s| == 2
  {
    [(v % 0x100) as byte, (v / 0x100) as byte]
  }

  function U16FromLe(s: seq<byte>): u16
    requires |s| == 2
  {
    s[0] as nat + 0x100 * s[1] as nat
  }

  function U32ToLe(v: u32): (s: seq<byte>)
    ensures |s| == 4
  {
    U16ToLe(v % 0x1_0000) + U16ToLe(v / 0x1_0000)
  }

  function U32FromLe(s: seq<byte>): u32
    requires |s| == 4
  {
    U16FromLe(s[..2]) + 0x1_0000 * U16FromLe(s[2..])
  }

  lemma U16RoundTrip(v: u16)
    ensures U16FromLe(U16ToLe(v)) == v
  {
  }

  lemma U32RoundTrip(v: u32)
    ensures U32FromLe(U32ToLe(v)) == v
  {
    var lo, hi := U16ToLe(v % 0x1_0000), U16ToLe(v / 0x1_0000);
    assert (lo + hi)[..2] == lo && (lo + hi)[2..] == hi;
    U16RoundTrip(v % 0x1_0000);
    U16RoundTrip(v / 0x1_0000);
  }

  lemma U16FromLeInjective(s: seq<byte>, t: seq<byte>)
    requires |s| == |t| == 2 && U16FromLe(s) == U16FromLe(t)
    ensures s == t
  {
    assert s[0] as nat == U16FromLe(s) % 0x100 == t[0] as nat;
  }

  lemma U32FromLeInjective(s: seq<byte>, t: seq<byte>)
    requires |s| == |t| == 4 && U32FromLe(s) == U32FromLe(t)
    ensures s == t
  {
    hide U16FromLe;
    assert U16FromLe(s[..2]) == U32FromLe(s) % 0x1_0000 == U16FromLe(t[..2]);
    U16FromLeInjective(s[..2], t[..2]);
    U16FromLeInjective(s[2..], t[2..]);
    assert s == s[..2] + s[2..] && t == t[..2] + t[2..];
  }

  /** Any two bytes, and any four, are those of the number they read as. */
  lemma U16BytesBack(s: seq<byte>)
    requires |s| == 2
    ensures U16ToLe(U16FromLe(s)) == s
  {
    U16RoundTrip(U16FromLe(s));
    U16FromLeInjective(U16ToLe(U16FromLe(s)), s);
  }

  lemma U32BytesBack(s: seq<byte>)
    requires |s| == 4
    ensures U32ToLe(U32FromLe(s)) == s
  {
    U32RoundTrip(U32FromLe(s));
    U32FromLeInjective(U32ToLe(U32FromLe(s)), s);
  }
}
