/** The lexicographic orders of the caches: on octets as they are, or on letters folded and taken as signed. */
module ByteOrder {
  import opened Octets

  /** The value compared: a char is signed, the octets of a std::string compare as unsigned. */
  function Rank(c: Byte, signed: bool): int {
    if signed && c >= 128 then c - 256 else c
  }

  predicate Less(signed: bool, a: Bytes, b: Bytes)
    decreases |a|
  {
    if a == [] || b == [] then a == [] && b != []
    else if a[0] != b[0] then Rank(a[0], signed) < Rank(b[0], signed)
    else Less(signed, a[1..], b[1..])
  }

  /** Exactly one of less, equal and greater. */
  lemma {:induction false} LessTotal(signed: bool, a: Bytes, b: Bytes)
    ensures a != b <==> Less(signed, a, b) || Less(signed, b, a)
    ensures !(Less(signed, a, b) && Less(signed, b, a))
    decreases |a|
  {
    if a != [] && b != [] {
      LessTotal(signed, a[1..], b[1..]);
      assert a == [a[0]] + a[1..] && b == [b[0]] + b[1..];
    }
  }

  lemma {:induction false} LessTransitive(signed: bool, a: Bytes, b: Bytes, c: Bytes)
    requires Less(signed, a, b) && Less(signed, b, c)
    ensures Less(signed, a, c)
    decreases |a|
  {
    if a != [] && a[0] == b[0] == c[0] {
      LessTransitive(signed, a[1..], b[1..], c[1..]);
    }
  }

  /** pdns_ilexicographical_compare. */
  method ILexicographicalCompare(a: Bytes, b: Bytes) returns (r: bool)
    ensures r == Less(true, Lower(a), Lower(b))
  {
    ghost var x, y := Lower(a), Lower(b);
    var n := 0;
    while n < |a| && n < |b|
      invariant n <= |a| && n <= |b| && Less(true, x, y) == Less(true, x[n..], y[n..])
    {
      assert x[n..][0] == ToLower(a[n]) && y[n..][0] == ToLower(b[n]);
      var result := Rank(ToLower(a[n]), true) - Rank(ToLower(b[n]), true);
      if result != 0 {
        return result < 0;
      }
      assert x[n..][1..] == x[n + 1..] && y[n..][1..] == y[n + 1..];
      n := n + 1;
    }
    return n == |a| && n != |b|;
  }
}
