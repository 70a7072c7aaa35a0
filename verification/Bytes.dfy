/** Octets, little-endian fields and C strings, shared by every wire format. */
module Bytes {

  datatype Option<+T> = None | Some(value: T)

  type byte = x: int | 0 <= x < 256

  /** Two-byte little-endian field. */
  function Le16(n: nat): (s: seq<byte>)
    requires n < 0x1_0000
    ensures |s| == 2
  {
    [n % 256, n / 256]
  }

  function FromLe16(lo: byte, hi: byte): (n: nat)
    ensures n < 0x1_0000
    ensures Le16(n) == [lo, hi]
  {
    lo + 256 * hi
  }

  /** Four-byte little-endian field. */
  function Le32(n: nat): (s: seq<byte>)
    requires n < 0x1_0000_0000
    ensures |s| == 4
  {
    Le16(n % 0x1_0000) + Le16(n / 0x1_0000)
  }

  function FromLe32(s: seq<byte>): (n: nat)
    requires |s| == 4
    ensures n < 0x1_0000_0000
  {
    FromLe16(s[0], s[1]) + 0x1_0000 * FromLe16(s[2], s[3])
  }

  /** Least significant byte first. */
  lemma Digits256(n: nat)
    requires n < 0x1_0000_0000
    ensures Le32(n) == [n % 256, n / 256 % 256, n / 0x1_0000 % 256, n / 0x100_0000]
    ensures n < 0x1_0000 ==> Le16(n) == [n % 256, n / 256]
  {
    LowDigit(n);
    MiddleDigit(n);
    TopDigit(n);
  }

  lemma LowDigit(n: nat)
    ensures n % 0x1_0000 % 256 == n % 256
  {
  }

  lemma MiddleDigit(n: nat)
    ensures n % 0x1_0000 / 256 == n / 256 % 256
  {
  }

  lemma TopDigit(n: nat)
    ensures n / 0x1_0000 / 256 == n / 0x100_0000
  {
  }

  lemma Le32RoundTrip(n: nat)
    requires n < 0x1_0000_0000
    ensures FromLe32(Le32(n)) == n
  {
  }

  /** The bytes of a C string: everything before the first NUL. */
  function CStr(s: seq<byte>): (r: seq<byte>)
    ensures |r| <= |s| && r == s[..|r|]
    ensures 0 !in r
    ensures |r| < |s| ==> s[|r|] == 0
  {
    if s == [] || s[0] == 0 then []
    else
      var t := CStr(s[1..]);
      assert ([s[0]] + t) == s[..1 + |t|];
      [s[0]] + t
  }

  /** A NUL-free text ended by a NUL reads back as that text. */
  lemma {:induction false} CStrTerminated(text: seq<byte>, rest: seq<byte>)
    requires 0 !in text
    ensures CStr(text + [0] + rest) == text
  {
    if text != [] {
      assert (text + [0] + rest)[1..] == text[1..] + [0] + rest;
      CStrTerminated(text[1..], rest);
    }
  }

  /** A NUL-free text with nothing after it reads back whole. */
  lemma {:induction false} CStrWhole(text: seq<byte>)
    requires 0 !in text
    ensures CStr(text) == text
  {
    if text != [] {
      CStrWhole(text[1..]);
    }
  }

  function Zeros(n: nat): (s: seq<byte>)
    ensures |s| == n
    ensures forall i :: 0 <= i < n ==> s[i] == 0
  {
    seq(n, _ => 0)
  }

  function Min(a: int, b: int): int {
    if a <= b then a else b
  }

  /** An octet survives the trip through an 8-bit vector. */
  lemma Octet(a: byte)
    ensures (a as bv8) as int == a
  {
    assert a % 256 == a;
  }
}
