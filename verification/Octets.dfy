/** Bytes and little-endian fields. */
module Octets {

  newtype byte = x: int | 0 <= x < 256

  function Low(n: nat): byte {
    (n % 256) as byte
  }

  function Get16(a: byte, b: byte): (n: nat)
    ensures n < 0x1_0000
  {
    a as nat + 256 * (b as nat)
  }

  lemma Get16Set(n: nat)
    requires n < 0x1_0000
    ensures Get16(Low(n), Low(n / 256)) == n
  {
  }

  function Get32(a: byte, b: byte, c: byte, d: byte): (n: nat)
    ensures n < 0x1_0000_0000
  {
    Get16(a, b) + 0x1_0000 * Get16(c, d)
  }

  lemma Get32Set(n: nat)
    requires n < 0x1_0000_0000
    ensures Get32(Low(n), Low(n / 256), Low(n / 0x1_0000), Low(n / 0x100_0000)) == n
  {
    var lo, hi := n % 0x1_0000, n / 0x1_0000;
    Get16Set(lo);
    Get16Set(hi);
    var q := hi / 256;
    assert n == 0x100_0000 * q + (0x1_0000 * (hi - 256 * q) + lo) && 0 <= hi - 256 * q < 256;
    assert n / 0x100_0000 == q;
    var b := n / 256;
    assert n == 256 * b + lo % 256 && b == 256 * hi + lo / 256;
    assert b % 256 == lo / 256;
  }

  function Zeros(n: nat): (s: seq<byte>)
    ensures |s| == n && forall i :: 0 <= i < n ==> s[i] == 0
  {
    if n == 0 then [] else Zeros(n - 1) + [0]
  }

  /** The text of a C string: everything before the first zero. */
  function CString(s: seq<byte>): (r: seq<byte>)
    ensures 0 !in r
    ensures 0 !in s ==> r == s
  {
    if s == [] || s[0] == 0 then [] else [s[0]] + CString(s[1..])
  }
}
