/** Octets, octet strings and the ASCII case folding shared by every component. */
module Octets {
  type Byte = b: int | 0 <= b < 256
  type Bytes = seq<Byte>

  /** One more than a 32-bit number can be. */
  const U32 := 0x1_0000_0000

  type Word16 = w: nat | w < 0x1_0000
  type Word32 = w: nat | w < U32

  const DOT: Byte := 46
  const BACKSLASH: Byte := 92

  /** Folds 'A'..'Z' onto 'a'..'z' and leaves every other octet alone. */
  function ToLower(c: Byte): Byte {
    if 65 <= c <= 90 then c + 32 else c
  }

  function Lower(s: Bytes): (r: Bytes)
    ensures |r| == |s|
    ensures forall i :: 0 <= i < |s| ==> r[i] == ToLower(s[i])
  {
    seq(|s|, i requires 0 <= i < |s| => ToLower(s[i]))
  }

  lemma LowerConcat(a: Bytes, b: Bytes)
    ensures Lower(a + b) == Lower(a) + Lower(b)
  {
  }

  /** The comparison loop of pdns_iequals: it stops at the first differing octet. */
  method IEquals(a: Bytes, b: Bytes) returns (r: bool)
    ensures r <==> Lower(a) == Lower(b)
  {
    var n := 0;
    while n < |a| && n < |b|
      invariant n <= |a| && n <= |b|
      invariant forall i :: 0 <= i < n ==> Lower(a)[i] == Lower(b)[i]
    {
      if ToLower(a[n]) != ToLower(b[n]) {
        assert Lower(a)[n] != Lower(b)[n];
        return false;
      }
      n := n + 1;
    }
    return |a| == |b|;
  }

  /** Network byte order. */
  function Be16(v: int): (r: Bytes)
    ensures |r| == 2
  {
    [(v / 256) % 256, v % 256]
  }

  function Be32(v: int): (r: Bytes)
    ensures |r| == 4
  {
    [(v / 0x100_0000) % 256, (v / 0x1_0000) % 256, (v / 256) % 256, v % 256]
  }

  function FromBe16(b: Bytes): (v: nat)
    requires |b| == 2
    ensures v < 0x1_0000
  {
    256 * (b[0] as int) + b[1]
  }

  function FromBe32(b: Bytes): (v: nat)
    requires |b| == 4
    ensures v < 0x1_0000_0000
  {
    0x100_0000 * (b[0] as int) + 0x1_0000 * (b[1] as int) + 256 * (b[2] as int) + b[3]
  }

  lemma Be16RoundTrip(v: int)
    ensures FromBe16(Be16(v)) == v % 0x1_0000
  {
  }

  lemma Be32RoundTrip(v: int)
    ensures FromBe32(Be32(v)) == v % 0x1_0000_0000
  {
    ByteDigits(v, v / 256, v / 0x1_0000, v / 0x100_0000);
  }

  lemma ByteDigits(v: int, q1: int, q2: int, q3: int)
    requires q1 == v / 256 && q2 == v / 0x1_0000 && q3 == v / 0x100_0000
    ensures 0x100_0000 * (q3 % 256) + 0x1_0000 * (q2 % 256) + 256 * (q1 % 256) + v % 256 == v % 0x1_0000_0000
  {
    var d0, d1, d2, d3 := v % 256, (v / 256) % 256, (v / 256 / 256) % 256, q3 % 256;
    DivUnique(v, 0x1_0000, v / 256 / 256, 256 * d1 + d0);
    DivUnique(v, 0x100_0000, v / 256 / 256 / 256, 0x1_0000 * d2 + 256 * d1 + d0);
    var q4 := q3 / 256;
    assert v == 256 * q1 + d0 && q1 == 256 * q2 + d1 && q2 == 256 * q3 + d2 && q3 == 256 * q4 + d3;
    DivUnique(v, 0x1_0000_0000, q4, 0x100_0000 * d3 + 0x1_0000 * d2 + 256 * d1 + d0);
  }

  lemma DivUnique(v: int, d: nat, q: int, r: int)
    requires d > 0 && v == d * q + r && 0 <= r < d
    ensures v / d == q && v % d == r
  {
    var e := v / d - q;
    assert d * e == r - v % d;
    assert e >= 1 ==> d * e >= d;
    assert e <= -1 ==> d * e <= 0 - d;
  }
}
