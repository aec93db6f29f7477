/** What it means for a buffer to hold an encoded name (section 4.1.4 of RFC 1035), independent of
    how the writer produced it and of how the reader walks it. A view may have holes: octets that are
    not written yet or are still to be overwritten, such as the pending record header. */
module DnsWire {
  import opened Octets
  import opened DnsNames

  const HEADER := 12
  const RECORD_HEADER := 10
  const HOLE := -1

  type View = seq<int>

  function Holes(n: nat): (r: View)
    ensures |r| == n
    ensures forall i :: 0 <= i < n ==> r[i] == HOLE
  {
    seq(n, i => HOLE)
  }

  ghost predicate Refines(v: View, w: View) {
    |v| <= |w| && forall i :: 0 <= i < |v| && v[i] != HOLE ==> w[i] == v[i]
  }

  /** The octets at pos are the label l up to case. */
  ghost predicate LabelBytes(v: View, pos: nat, l: Label) {
    pos + |l| <= |v| &&
    forall i :: 0 <= i < |l| ==> SameOctet(v[pos + i], l[i])
  }

  predicate SameOctet(x: int, c: Byte) {
    0 <= x < 256 && ToLower(x) == ToLower(c)
  }

  ghost predicate PointerAt(v: View, pos: nat) {
    pos + 1 < |v| && 192 <= v[pos] < 256 && 0 <= v[pos + 1] < 256
  }

  ghost function Target(v: View, pos: nat): nat
    requires PointerAt(v, pos)
  {
    256 * (v[pos] - 192) + v[pos + 1]
  }

  /** The name n starts at pos with a literal label, or with the final zero octet. */
  ghost predicate LiteralAt(v: View, pos: nat, n: Name)
    decreases |n|, 0
  {
    pos < |v| &&
    if n == [] then v[pos] == 0
    else
      && ValidLabel(n[0])
      && v[pos] == |n[0]|
      && LabelBytes(v, pos + 1, n[0])
      && NameAt(v, pos + 1 + |n[0]|, n[1..])
  }

  /** The name n is encoded at pos: literally, or by a pointer to a literal label strictly before pos. */
  ghost predicate NameAt(v: View, pos: nat, n: Name)
    decreases |n|, 1
  {
    LiteralAt(v, pos, n) ||
    (n != [] && PointerAt(v, pos) && HEADER <= Target(v, pos) < pos && LiteralAt(v, Target(v, pos), n))
  }

  /** The position just past the encoding: past the pointer when there is one. */
  ghost function NameEnd(v: View, pos: nat, n: Name): (e: nat)
    requires NameAt(v, pos, n)
    ensures pos < e <= |v|
    decreases |n|
  {
    if LiteralAt(v, pos, n) then
      if n == [] then pos + 1 else NameEnd(v, pos + 1 + |n[0]|, n[1..])
    else pos + 2
  }

  /** How many pointers a reader follows. */
  ghost function Hops(v: View, pos: nat, n: Name): (h: nat)
    requires NameAt(v, pos, n)
    ensures h <= |n|
    decreases |n|, 1
  {
    if LiteralAt(v, pos, n) then LiteralHops(v, pos, n)
    else 1 + LiteralHops(v, Target(v, pos), n)
  }

  ghost function LiteralHops(v: View, pos: nat, n: Name): (h: nat)
    requires LiteralAt(v, pos, n)
    ensures n == [] ==> h == 0
    ensures n != [] ==> h < |n|
    decreases |n|, 0
  {
    if n == [] then 0 else Hops(v, pos + 1 + |n[0]|, n[1..])
  }

  lemma LabelRefines(v: View, w: View, pos: nat, l: Label)
    requires Refines(v, w) && LabelBytes(v, pos, l)
    ensures LabelBytes(w, pos, l)
  {
    forall i | 0 <= i < |l|
      ensures SameOctet(w[pos + i], l[i])
    {
      assert SameOctet(v[pos + i], l[i]);
    }
  }

  lemma LabelIgnoresCase(v: View, pos: nat, k: Label, l: Label)
    requires LabelBytes(v, pos, k) && Lower(k) == Lower(l)
    ensures LabelBytes(v, pos, l)
  {
    assert |Lower(k)| == |k| && |Lower(l)| == |l|;
    forall i | 0 <= i < |l|
      ensures SameOctet(v[pos + i], l[i])
    {
      assert Lower(k)[i] == Lower(l)[i];
      assert SameOctet(v[pos + i], k[i]);
    }
  }

  lemma {:induction false} LiteralRefines(v: View, w: View, pos: nat, n: Name)
    requires Refines(v, w) && LiteralAt(v, pos, n)
    ensures LiteralAt(w, pos, n) && LiteralHops(w, pos, n) == LiteralHops(v, pos, n)
    ensures NameEnd(w, pos, n) == NameEnd(v, pos, n)
    decreases |n|, 0
  {
    if n != [] {
      LabelRefines(v, w, pos + 1, n[0]);
      NameRefines(v, w, pos + 1 + |n[0]|, n[1..]);
    }
  }

  /** Filling holes and appending keep every encoded name, its end and its pointer count. */
  lemma {:induction false} NameRefines(v: View, w: View, pos: nat, n: Name)
    requires Refines(v, w) && NameAt(v, pos, n)
    ensures NameAt(w, pos, n) && Hops(w, pos, n) == Hops(v, pos, n) && NameEnd(w, pos, n) == NameEnd(v, pos, n)
    decreases |n|, 1
  {
    if LiteralAt(v, pos, n) {
      LiteralRefines(v, w, pos, n);
    } else {
      LiteralRefines(v, w, Target(v, pos), n);
      assert w[pos] == v[pos] && !LiteralAt(w, pos, n);
    }
  }

  /** Names are only determined up to case. */
  lemma {:induction false} LiteralIgnoresCase(v: View, pos: nat, m: Name, n: Name)
    requires LiteralAt(v, pos, m) && LowerName(m) == LowerName(n)
    ensures LiteralAt(v, pos, n) && LiteralHops(v, pos, n) == LiteralHops(v, pos, m)
    decreases |n|, 0
  {
    assert |m| == |n|;
    if n != [] {
      assert LowerName(m)[0] == LowerName(n)[0];
      LabelIgnoresCase(v, pos + 1, m[0], n[0]);
      assert |Lower(m[0])| == |m[0]| && |Lower(n[0])| == |n[0]|;
      assert LowerName(m)[1..] == LowerName(m[1..]) && LowerName(n)[1..] == LowerName(n[1..]);
      NameIgnoresCase(v, pos + 1 + |n[0]|, m[1..], n[1..]);
    }
  }

  lemma {:induction false} NameIgnoresCase(v: View, pos: nat, m: Name, n: Name)
    requires NameAt(v, pos, m) && LowerName(m) == LowerName(n)
    ensures NameAt(v, pos, n) && Hops(v, pos, n) == Hops(v, pos, m)
    decreases |n|, 1
  {
    if LiteralAt(v, pos, m) {
      LiteralIgnoresCase(v, pos, m, n);
    } else {
      assert |m| == |n|;
      LiteralIgnoresCase(v, Target(v, pos), m, n);
      assert v[pos] >= 192;
      assert !LiteralAt(v, pos, n);
    }
  }
}
