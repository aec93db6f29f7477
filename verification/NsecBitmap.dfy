/** The type bitmaps of NSEC and NSEC3 records: one window block, as section 4.1.2 of RFC 4034 has it. */
module NsecBitmap {
  type Octets = seq<bv8>

  datatype Result = Ok(types: set<nat>) | Err

  /** The bit of type k of an octet, counted from the left. */
  function Mask(k: nat): bv8
    requires k < 8
  {
    match k
    case 0 => 0x80
    case 1 => 0x40
    case 2 => 0x20
    case 3 => 0x10
    case 4 => 0x08
    case 5 => 0x04
    case 6 => 0x02
    case _ => 0x01
  }

  predicate IsSet(v: bv8, k: nat)
    requires k < 8
  {
    v & Mask(k) != 0
  }

  lemma SetsOneBit(v: bv8, k: nat, j: nat)
    requires k < 8 && j < 8
    ensures IsSet(v | Mask(k), j) <==> IsSet(v, j) || j == k
    ensures !IsSet(0, j)
  {
    match k
    case 0 => case 1 => case 2 => case 3 => case 4 => case 5 => case 6 => case _ =>
  }

  // ---- Encoding -------------------------------------------------------------------------------

  /** A set in the order it is gone through. */
  ghost predicate Ascending(types: seq<nat>) {
    forall i, j :: 0 <= i < j < |types| ==> types[i] < types[j]
  }

  /** How many of them are written: the loop stops at 255. */
  function Written(types: seq<nat>): (n: nat)
    ensures n <= |types|
    ensures forall i :: 0 <= i < n ==> types[i] < 255
    ensures n < |types| ==> types[n] >= 255
  {
    if types == [] || types[0] >= 255 then 0
    else
      var n := Written(types[1..]);
      assert forall i :: 1 <= i < n + 1 ==> types[i] == types[1..][i - 1];
      n + 1
  }

  /** One more bit in the 34 octets of the result. */
  function SetType(res: Octets, t: nat): (r: Octets)
    requires |res| == 34 && t < 255
    ensures |r| == 34
  {
    res[2 + t / 8 := res[2 + t / 8] | Mask(t % 8)]
  }

  /** The result after the first n members. */
  function Fill(types: seq<nat>, n: nat): (r: Octets)
    requires n <= |types| && forall i :: 0 <= i < n ==> types[i] < 255
    ensures |r| == 34
  {
    if n == 0 then seq(34, _ => 0) else SetType(Fill(types, n - 1), types[n - 1])
  }

  /** The number of octets of the bitmap proper. */
  function Length(types: seq<nat>): (n: nat)
    ensures n <= 32
  {
    var n := Written(types);
    if n == 0 then 0 else 1 + types[n - 1] / 8
  }

  /** With members but none below 255 the code steps back before the first of them. */
  predicate Defined(types: seq<nat>) {
    types == [] || types[0] < 255
  }

  /** What toPacket writes behind the name: the window, the length, the bits. */
  function Encode(types: seq<nat>): (r: Octets)
    requires Defined(types)
    ensures |r| == 2 + Length(types)
  {
    Fill(types, Written(types))[1 := Length(types) as bv8][..2 + Length(types)]
  }

  // ---- Decoding -------------------------------------------------------------------------------

  function TypesIn(bitmap: Octets): set<nat>
    requires |bitmap| >= 2
  {
    set t | 0 <= t < 8 * (|bitmap| - 2) && IsSet(bitmap[2 + t / 8], t % 8)
  }

  /** The length octet is a char, which is signed: from 128 on it is a length no string has. */
  predicate LengthFits(bitmap: Octets)
    requires |bitmap| >= 2
  {
    bitmap[1] < 0x80 && |bitmap| == 2 + bitmap[1] as int
  }

  /** What make reads behind the name: a single block for window zero. */
  function Decode(bitmap: Octets): Result {
    if |bitmap| < 2 || bitmap[0] != 0 || !LengthFits(bitmap) then Err else Ok(TypesIn(bitmap))
  }

  /** NSEC3 takes no bitmap at all for no types. */
  function Decode3(bitmap: Octets): Result {
    if bitmap == [] then Ok({}) else Decode(bitmap)
  }

  // ---- Round trip -----------------------------------------------------------------------------

  predicate TypeIn(res: Octets, t: nat)
    requires |res| >= 2
  {
    t / 8 < |res| - 2 && IsSet(res[2 + t / 8], t % 8)
  }

  lemma SetTypeIs(res: Octets, v: nat, t: nat)
    requires |res| == 34 && v < 255 && t < 256
    ensures TypeIn(SetType(res, v), t) <==> TypeIn(res, t) || t == v
  {
    SetsOneBit(res[2 + v / 8], v % 8, t % 8);
  }

  lemma {:induction false} FillIs(types: seq<nat>, n: nat, t: nat)
    requires n <= |types| && (forall i :: 0 <= i < n ==> types[i] < 255) && t < 256
    ensures TypeIn(Fill(types, n), t) <==> t in types[..n]
    ensures Fill(types, n)[0] == Fill(types, n)[1] == 0
  {
    if n == 0 {
      SetsOneBit(0, 0, t % 8);
    } else {
      FillIs(types, n - 1, t);
      SetTypeIs(Fill(types, n - 1), types[n - 1], t);
      assert types[..n] == types[..n - 1] + [types[n - 1]];
    }
  }

  /** Members below 255 are in the part that is written, and only those. */
  lemma {:induction false} WrittenIs(types: seq<nat>, t: nat)
    requires Ascending(types) && Defined(types)
    ensures t in types[..Written(types)] <==> t in types && t < 255
    ensures t in types[..Written(types)] ==> t < 8 * Length(types)
  {
    var n := Written(types);
    if t in types && t < 255 {
      var i :| 0 <= i < |types| && types[i] == t;
      assert i < n;
    }
  }

  lemma {:induction false} EncodeIs(types: seq<nat>)
    requires Defined(types)
    ensures Encode(types)[0] == 0 && Encode(types)[1] as int == Length(types)
    ensures forall i :: 2 <= i < 2 + Length(types) ==> Encode(types)[i] == Fill(types, Written(types))[i]
  {
    hide Length, Written, Mask, Fill;
    FillIs(types, Written(types), 0);
  }

  function Members(types: seq<nat>): set<nat> {
    set t | t in types
  }

  function Below255(types: seq<nat>): set<nat> {
    set t | t in types && t < 255
  }

  lemma InEncoded(types: seq<nat>, t: nat)
    requires Ascending(types) && Defined(types)
    ensures t in TypesIn(Encode(types)) <==> t in types && t < 255
  {
    hide Encode, Fill, Length, Written, Mask;
    EncodeIs(types);
    WrittenIs(types, t);
    if t < 8 * Length(types) {
      FillIs(types, Written(types), t);
    }
  }

  /** Decoding gives back the members below 255, in an NSEC record and in an NSEC3 record. */
  lemma RoundTrip(types: seq<nat>)
    requires Ascending(types) && Defined(types)
    ensures Decode(Encode(types)) == Decode3(Encode(types)) == Ok(Below255(types))
  {
    EncodeIs(types);
    hide Encode, Length, Written, TypesIn, Fill;
    forall t: nat ensures t in TypesIn(Encode(types)) <==> t in Below255(types) {
      InEncoded(types, t);
    }
    assert TypesIn(Encode(types)) == Below255(types);
  }

  /** All members come back exactly when all are below 255. */
  lemma RoundTripIff(types: seq<nat>)
    requires Ascending(types) && Defined(types)
    ensures Decode(Encode(types)) == Ok(Members(types)) <==> forall t :: t in types ==> t < 255
    ensures Decode3(Encode(types)) == Ok(Members(types)) <==> forall t :: t in types ==> t < 255
  {
    RoundTrip(types);
    hide Decode, Decode3, Encode;
    assert Below255(types) == Members(types) <==> forall t :: t in types ==> t < 255 by {
      if Below255(types) == Members(types) {
        forall t | t in types ensures t < 255 {
          assert t in Members(types);
        }
      }
    }
  }

  // ---- The loops ------------------------------------------------------------------------------

  method ToBitmap(types: seq<nat>) returns (bitmap: Octets)
    requires Ascending(types) && Defined(types)
    ensures bitmap == Encode(types)
  {
    hide Written, Mask;
    var res: Octets := seq(34, _ => 0);
    var i := 0;
    while i < |types| && types[i] < 255
      invariant i <= Written(types) && (forall k :: 0 <= k < i ==> types[k] < 255) && res == Fill(types, i)
      decreases |types| - i
    {
      var v := types[i];
      res := res[2 + v / 8 := res[2 + v / 8] | Mask(v % 8)];
      i := i + 1;
    }
    assert i == Written(types);
    hide Fill;
    var len := 0;
    if |types| != 0 {
      len := 1 + types[i - 1] / 8;
    }
    res := res[1 := len as bv8];
    bitmap := res[..len + 2];
  }

  method FromBitmap(bitmap: Octets) returns (r: Result)
    ensures r == Decode(bitmap)
  {
    if |bitmap| < 2 || bitmap[0] != 0 || !LengthFits(bitmap) {
      return Err;
    }
    var types: set<nat> := {};
    for n := 0 to |bitmap| - 2
      invariant types == TypesIn(bitmap[..2 + n])
    {
      var octet := OctetTypes(bitmap[2 + n], n);
      types := types + octet;
      assert bitmap[..2 + n + 1][..2 + n] == bitmap[..2 + n];
      MoreTypes(bitmap[..2 + n + 1]);
    }
    assert bitmap[..|bitmap|] == bitmap;
    r := Ok(types);
  }

  /** The same of NSEC3, where the bitmap may be missing. */
  method FromBitmap3(bitmap: Octets) returns (r: Result)
    ensures r == Decode3(bitmap)
  {
    if bitmap == [] {
      return Ok({});
    }
    r := FromBitmap(bitmap);
  }

  /** The types of an octet from position k on. */
  function TypesFrom(v: bv8, n: nat, k: nat): set<nat> {
    set t | 8 * n + k <= t < 8 * n + 8 && IsSet(v, t % 8)
  }

  lemma TypesFromIs(v: bv8, n: nat, k: nat)
    requires k < 8
    ensures TypesFrom(v, n, k) == TypesFrom(v, n, k + 1) + if IsSet(v, k) then {k + 8 * n} else {}
    ensures TypesFrom(v, n, 8) == {}
  {
    assert (k + 8 * n) % 8 == k;
  }

  /** The types of one octet, taken from its lowest bit up. */
  method OctetTypes(v: bv8, n: nat) returns (types: set<nat>)
    ensures types == TypesFrom(v, n, 0)
  {
    var val := v;
    types := {};
    TypesFromIs(v, n, 7);
    for bit := 0 to 8
      invariant val == Shifted(v, bit)
      invariant types == TypesFrom(v, n, 8 - bit)
    {
      LowBit(v, bit);
      TypesFromIs(v, n, 7 - bit);
      if val & 1 != 0 {
        types := types + {7 - bit + 8 * n};
      }
      val := val >> 1;
    }
  }

  function Shifted(v: bv8, bit: nat): bv8
    requires bit <= 8
  {
    match bit
    case 0 => v
    case 1 => v >> 1
    case 2 => v >> 2
    case 3 => v >> 3
    case 4 => v >> 4
    case 5 => v >> 5
    case 6 => v >> 6
    case 7 => v >> 7
    case _ => 0
  }

  lemma LowBit(v: bv8, bit: nat)
    requires bit < 8
    ensures Shifted(v, bit) & 1 != 0 <==> IsSet(v, 7 - bit)
    ensures Shifted(v, bit) >> 1 == Shifted(v, bit + 1)
  {
    match bit
    case 0 => case 1 => case 2 => case 3 => case 4 => case 5 => case 6 => case _ =>
  }

  lemma MoreTypes(bitmap: Octets)
    requires |bitmap| > 2
    ensures TypesIn(bitmap) == TypesIn(bitmap[..|bitmap| - 1]) + TypesFrom(bitmap[|bitmap| - 1], |bitmap| - 3, 0)
  {
    var front := bitmap[..|bitmap| - 1];
    forall t: nat
      ensures t in TypesIn(bitmap) <==> t in TypesIn(front) || t in TypesFrom(bitmap[|bitmap| - 1], |bitmap| - 3, 0)
    {
    }
  }
}
