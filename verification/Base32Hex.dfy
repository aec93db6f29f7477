/** The base32hex codec: five octets are eight groups of five bits. Section 7 of RFC 4648. */
module Base32Hex {
  type Octets = seq<bv8>

  // ---- Bit ranges -----------------------------------------------------------------------------

  /** An octet of a C string; from its end on there is the terminator. */
  function At(s: Octets, i: nat): bv8 {
    if i < |s| then s[i] else 0
  }

  /** extract_bits. */
  function ExtractBits(s: Octets, start: nat, length: nat): bv32
    requires length <= 16 && length + start % 8 <= 24
  {
    var cl, cc, cr := At(s, start / 8) as bv32, At(s, start / 8 + 1) as bv32, At(s, start / 8 + 2) as bv32;
    var x := (((cl << 8) | cc) << 8) | cr;
    (x >> (24 - (length + start % 8))) & ((0xffff as bv32) >> (16 - length))
  }

  function OrAt(s: Octets, i: nat, x: bv32): (r: Octets)
    requires i < |s|
    ensures |r| == |s|
  {
    s[i := s[i] | ((x & 0xff) as bv8)]
  }

  /** How far the range is from the end of its last octet. */
  function Shift(start: nat, length: nat): (k: nat)
    ensures k < 8
  {
    (8 - (start + length) % 8) % 8
  }

  /** x << k, with the amount spelled out. */
  function ShiftLeft(x: bv32, k: nat): bv32
    requires k < 8
  {
    match k
    case 0 => x
    case 1 => x << 1
    case 2 => x << 2
    case 3 => x << 3
    case 4 => x << 4
    case 5 => x << 5
    case 6 => x << 6
    case _ => x << 7
  }

  /** set_bits. */
  function SetBits(s: Octets, x: bv32, start: nat, length: nat): (r: Octets)
    requires 0 < length <= 16 && start + length <= 8 * |s|
    ensures |r| == |s|
  {
    var shift := Shift(start, length);
    var y := ShiftLeft(x, shift);
    var i := start / 8;
    LastOctet(start, length, shift, |s|);
    if shift + length > 16 then OrAt(OrAt(OrAt(s, i, y >> 16), i + 1, y >> 8), i + 2, y)
    else if shift + length > 8 then OrAt(OrAt(s, i, y >> 8), i + 1, y)
    else OrAt(s, i, y)
  }

  /** The range ends before the end of the string. */
  lemma LastOctet(start: nat, length: nat, shift: nat, size: nat)
    requires shift == Shift(start, length) && 0 < length <= 16 && start + length <= 8 * size
    ensures start / 8 + (if shift + length > 16 then 2 else if shift + length > 8 then 1 else 0) < size
  {
  }

  // ---- Groups of five bits, as the standard has them ------------------------------------------

  /** The group of five bits at position n of five octets. */
  function Quintet(s: Octets, n: nat): bv32
    requires n < 8
  {
    var b0, b1, b2, b3, b4 := At(s, 0) as bv32, At(s, 1) as bv32, At(s, 2) as bv32, At(s, 3) as bv32, At(s, 4) as bv32;
    match n
    case 0 => b0 >> 3
    case 1 => ((b0 & 7) << 2) | (b1 >> 6)
    case 2 => (b1 >> 1) & 31
    case 3 => ((b1 & 1) << 4) | (b2 >> 4)
    case 4 => ((b2 & 15) << 1) | (b3 >> 7)
    case 5 => (b3 >> 2) & 31
    case 6 => ((b3 & 3) << 3) | (b4 >> 5)
    case _ => b4 & 31
  }

  /** What is extracted is the group; the third octet that is read never matters. */
  lemma ExtractsQuintet(s: Octets, n: nat)
    requires n < 8
    ensures 5 + 5 * n % 8 <= 24 && ExtractBits(s, 5 * n, 5) == Quintet(s, n) < 32
  {
    if n < 3 {
      ExtractsEarly(s, n);
    } else if n < 6 {
      ExtractsMiddle(s, n);
    } else {
      ExtractsLate(s, n);
    }
  }

  lemma ExtractsEarly(s: Octets, n: nat)
    requires n < 3
    ensures ExtractBits(s, 5 * n, 5) == Quintet(s, n) < 32
  {
    match n
    case 0 => case 1 => case _ =>
  }

  lemma ExtractsMiddle(s: Octets, n: nat)
    requires 3 <= n < 6
    ensures ExtractBits(s, 5 * n, 5) == Quintet(s, n) < 32
  {
    match n
    case 3 => case 4 => case _ =>
  }

  lemma ExtractsLate(s: Octets, n: nat)
    requires 6 <= n < 8
    ensures ExtractBits(s, 5 * n, 5) == Quintet(s, n) < 32
  {
    match n
    case 6 => case _ =>
  }

  const ZERO: Octets := [0, 0, 0, 0, 0]

  /** Five octets with all but the first 5 * m bits cleared. */
  function Prefix(s: Octets, m: nat): (r: Octets)
    requires m <= 8
    ensures |r| == 5
  {
    var b0, b1, b2, b3, b4 := At(s, 0), At(s, 1), At(s, 2), At(s, 3), At(s, 4);
    match m
    case 0 => ZERO
    case 1 => [b0 & 0xF8, 0, 0, 0, 0]
    case 2 => [b0, b1 & 0xC0, 0, 0, 0]
    case 3 => [b0, b1 & 0xFE, 0, 0, 0]
    case 4 => [b0, b1, b2 & 0xF0, 0, 0]
    case 5 => [b0, b1, b2, b3 & 0x80, 0]
    case 6 => [b0, b1, b2, b3 & 0xFC, 0]
    case 7 => [b0, b1, b2, b3, b4 & 0xE0]
    case _ => [b0, b1, b2, b3, b4]
  }

  /** Where the five bits of each group go. */
  function SetGroup(s: Octets, x: bv32, m: nat): Octets
    requires m < 8 && |s| == 5
  {
    match m
    case 0 => OrAt(s, 0, x << 3)
    case 1 => OrAt(OrAt(s, 0, (x << 6) >> 8), 1, x << 6)
    case 2 => OrAt(s, 1, x << 1)
    case 3 => OrAt(OrAt(s, 1, (x << 4) >> 8), 2, x << 4)
    case 4 => OrAt(OrAt(s, 2, (x << 7) >> 8), 3, x << 7)
    case 5 => OrAt(s, 3, x << 2)
    case 6 => OrAt(OrAt(s, 3, (x << 5) >> 8), 4, x << 5)
    case _ => OrAt(s, 4, x)
  }

  function GroupShift(m: nat): nat
    requires m < 8
  {
    match m
    case 0 => 3
    case 1 => 6
    case 2 => 1
    case 3 => 4
    case 4 => 7
    case 5 => 2
    case 6 => 5
    case _ => 0
  }

  lemma ShiftOfGroup(m: nat)
    requires m < 8
    ensures Shift(5 * m, 5) == GroupShift(m)
  {
  }

  lemma SetsGroup(s: Octets, x: bv32, m: nat)
    requires m < 8 && |s| == 5
    ensures SetBits(s, x, 5 * m, 5) == SetGroup(s, x, m)
  {
    ShiftOfGroup(m);
    hide OrAt, Shift;
    match m
    case 0 => case 1 => case 2 => case 3 => case 4 => case 5 => case 6 => case _ =>
  }

  lemma GroupSetsEarly(s: Octets, m: nat)
    requires m < 2
    ensures SetGroup(Prefix(s, m), Quintet(s, m), m) == Prefix(s, m + 1)
  {
    match m
    case 0 => case _ =>
  }

  lemma ThirdGroupSets(s: Octets)
    ensures SetGroup(Prefix(s, 2), Quintet(s, 2), 2) == Prefix(s, 3)
  {
  }

  lemma FourthGroup(b1: bv8, b2: bv8)
    ensures var x := ((b1 as bv32 & 1) << 4) | (b2 as bv32 >> 4);
            (b1 & 0xFE) | ((((x << 4) >> 8) & 0xff) as bv8) == b1 && (((x << 4) & 0xff) as bv8) == b2 & 0xF0
  {
  }

  lemma FourthGroupSets(s: Octets)
    ensures SetGroup(Prefix(s, 3), Quintet(s, 3), 3) == Prefix(s, 4)
  {
    FourthGroup(At(s, 1), At(s, 2));
  }

  lemma GroupSetsLate(s: Octets, m: nat)
    requires 4 <= m < 8
    ensures SetGroup(Prefix(s, m), Quintet(s, m), m) == Prefix(s, m + 1)
  {
    match m
    case 4 => case 5 => case 6 => case _ =>
  }

  /** Setting the next group takes a prefix five bits further. */
  lemma SetsQuintet(s: Octets, m: nat)
    requires m < 8
    ensures SetBits(Prefix(s, m), Quintet(s, m), 5 * m, 5) == Prefix(s, m + 1)
  {
    hide SetBits, Prefix, Quintet, SetGroup;
    SetsGroup(Prefix(s, m), Quintet(s, m), m);
    if m < 2 {
      GroupSetsEarly(s, m);
    } else if m == 2 {
      ThirdGroupSets(s);
    } else if m == 3 {
      FourthGroupSets(s);
    } else {
      GroupSetsLate(s, m);
    }
  }

  // ---- Characters -----------------------------------------------------------------------------

  const BASE32HEX := "0123456789ABCDEFGHIJKLMNOPQRSTUV="

  /** unbase32hex: letters of either case, and those beyond V too; the padding is itself, anything else an error. */
  function Unbase32Hex(c: char): int {
    if '0' <= c <= '9' then c as int - '0' as int
    else if 'a' <= c <= 'z' then 10 + (c as int - 'a' as int)
    else if 'A' <= c <= 'Z' then 10 + (c as int - 'A' as int)
    else if c == '=' then '=' as int
    else -1
  }

  lemma DigitRoundTrip(v: nat)
    requires v < 32
    ensures Unbase32Hex(BASE32HEX[v]) == v
  {
  }

  // ---- The codec ------------------------------------------------------------------------------

  function Stuffing(todo: nat): (n: nat)
    ensures n <= 6
  {
    match todo
    case 1 => 6
    case 2 => 4
    case 3 => 3
    case 4 => 1
    case _ => 0
  }

  function Digit(s: Octets, n: nat): char
    requires n < 8
  {
    ExtractsQuintet(s, n);
    BASE32HEX[ExtractBits(s, 5 * n, 5) as int]
  }

  function Digits(s: Octets, count: nat): (r: string)
    requires count <= 8
    ensures |r| == count
  {
    seq(count, n requires 0 <= n < count => Digit(s, n))
  }

  function Padding(n: nat): string {
    seq(n, _ => '=')
  }

  /** What is left from an offset on. */
  function From(s: Octets, offset: nat): (r: Octets)
    ensures |r| == if offset <= |s| then |s| - offset else 0
  {
    if offset <= |s| then s[offset..] else []
  }

  /** toBase32Hex. */
  function Encode(s: Octets): string
    decreases |s|
  {
    if s == [] then ""
    else
      var stuffing := Stuffing(|s|);
      Digits(s, 8 - stuffing) + Padding(stuffing) + Encode(From(s, 5))
  }

  predicate Stops(c: char) {
    Unbase32Hex(c) == '=' as int || Unbase32Hex(c) < 0
  }

  function Value(c: char): bv32
    requires !Stops(c)
  {
    Unbase32Hex(c) as bv32
  }

  /** fromBase32Hex from a position in its block on; at the end the bits there are are rounded up to octets. */
  function DecodeFrom(text: string, block: Octets, toWrite: nat): Octets
    requires |block| == 5 && toWrite < 8
    decreases |text|
  {
    if text == [] || Stops(text[0]) then block[..(7 + toWrite * 5) / 8]
    else
      var block' := SetBits(block, Value(text[0]), toWrite * 5, 5);
      if toWrite == 7 then block' + DecodeFrom(text[1..], ZERO, 0) else DecodeFrom(text[1..], block', toWrite + 1)
  }

  function Decode(text: string): Octets {
    DecodeFrom(text, ZERO, 0)
  }

  // ---- Round trip -----------------------------------------------------------------------------

  lemma {:induction false} DecodeUnfolds(c: char, rest: string, block: Octets, toWrite: nat)
    requires |block| == 5 && toWrite < 8 && !Stops(c)
    ensures var next := SetBits(block, Value(c), toWrite * 5, 5);
            DecodeFrom([c] + rest, block, toWrite) ==
            if toWrite == 7 then next + DecodeFrom(rest, ZERO, 0) else DecodeFrom(rest, next, toWrite + 1)
  {
    hide SetBits, Stops, Value;
    assert ([c] + rest)[1..] == rest;
  }

  lemma DecodesDigit(s: Octets, m: nat, rest: string)
    requires m < 8
    ensures var text := [Digit(s, m)] + rest;
            DecodeFrom(text, Prefix(s, m), m) ==
            if m == 7 then Prefix(s, 8) + DecodeFrom(rest, ZERO, 0) else DecodeFrom(rest, Prefix(s, m + 1), m + 1)
  {
    hide SetBits, Quintet, Prefix, ExtractBits, Digit, Stops, Value, DecodeFrom;
    DigitValue(s, m);
    SetsQuintet(s, m);
    DecodeUnfolds(Digit(s, m), rest, Prefix(s, m), m);
  }

  lemma DigitValue(s: Octets, m: nat)
    requires m < 8
    ensures !Stops(Digit(s, m)) && Value(Digit(s, m)) == Quintet(s, m)
  {
    ExtractsQuintet(s, m);
    hide ExtractBits, Quintet, Unbase32Hex, Stops, Value;
    var v := Quintet(s, m);
    DigitRoundTrip(v as int);
    ValueIs(Digit(s, m), v);
  }

  lemma ValueIs(c: char, v: bv32)
    requires v < 32 && Unbase32Hex(c) == v as int
    ensures !Stops(c) && Value(c) == v
  {
  }

  /** The digits from position m on, as far as count. */
  lemma {:induction false} DecodesDigits(s: Octets, m: nat, count: nat, rest: string)
    requires m <= count <= 8 && m < 8
    ensures DecodeFrom(Digits(s, count)[m..] + rest, Prefix(s, m), m) ==
            if count == 8 then Prefix(s, 8) + DecodeFrom(rest, ZERO, 0) else DecodeFrom(rest, Prefix(s, count), count)
    decreases count - m
  {
    hide DecodeFrom, Prefix, Digit;
    var text := Digits(s, count)[m..] + rest;
    if m == count {
      assert text == rest;
    } else {
      var tail := Digits(s, count)[m + 1..] + rest;
      assert text == [Digit(s, m)] + tail;
      DecodesDigit(s, m, tail);
      if m < 7 {
        DecodesDigits(s, m + 1, count, rest);
      } else {
        assert tail == rest;
      }
    }
  }

  /** A last group that is not full gives its octets and one of zero bits. */
  lemma DecodesLast(s: Octets)
    requires 0 < |s| < 5
    ensures DecodeFrom(Digits(s, 8 - Stuffing(|s|)) + Padding(Stuffing(|s|)), ZERO, 0) == s + [0]
  {
    var count, rest := 8 - Stuffing(|s|), Padding(Stuffing(|s|));
    DecodesDigits(s, 0, count, rest);
    assert Digits(s, count)[0..] == Digits(s, count);
    assert rest[0] == '=' && Stops('=');
    LastPrefix(s, count);
  }

  lemma LastPrefix(s: Octets, count: nat)
    requires 0 < |s| < 5 && count == 8 - Stuffing(|s|)
    ensures (7 + count * 5) / 8 == |s| + 1 && Prefix(s, count)[..|s| + 1] == s + [0]
  {
  }

  /** Decoding undoes encoding, except that a zero octet is added when the length is not a multiple of five. */
  lemma {:induction false} RoundTrip(s: Octets)
    ensures Decode(Encode(s)) == if |s| % 5 == 0 then s else s + [0]
    decreases |s|
  {
    hide DecodeFrom, Digits;
    if s == [] {
      NothingDecodes();
    } else if |s| < 5 {
      DecodesLast(s);
      var text := Digits(s, 8 - Stuffing(|s|)) + Padding(Stuffing(|s|));
      assert Encode([]) == "" && Encode(s) == text + "" == text;
      assert |s| % 5 == |s|;
    } else {
      var rest := Encode(s[5..]);
      assert Encode(s) == Digits(s, 8) + rest;
      DecodesDigits(s, 0, 8, rest);
      assert Digits(s, 8)[0..] == Digits(s, 8);
      assert Prefix(s, 0) == ZERO && Prefix(s, 8) == s[..5];
      RoundTrip(s[5..]);
      assert s == s[..5] + s[5..];
    }
  }

  lemma NothingDecodes()
    ensures DecodeFrom([], ZERO, 0) == []
  {
  }

  // ---- The two loops --------------------------------------------------------------------------

  method ToBase32Hex(input: Octets) returns (ret: string)
    ensures ret == Encode(input)
  {
    hide Digits, From, Stuffing;
    ret := "";
    var offset := 0;
    assert From(input, 0) == input by {
      FromAll(input);
    }
    while offset < |input|
      invariant 0 <= offset && ret + Encode(From(input, offset)) == Encode(input)
    {
      var s := From(input, offset);
      var stuffing := Stuffing(|s|);
      var digits := EmitDigits(s, 8 - stuffing);
      ghost var before, rest := ret, Encode(From(s, 5));
      FromFrom(input, offset);
      ret := ret + digits;
      ret := ret + Padding(stuffing);
      assert before + (digits + Padding(stuffing) + rest) == ret + rest;
      offset := offset + 5;
    }
  }

  lemma FromAll(s: Octets)
    ensures From(s, 0) == s && From(s, |s|) == []
  {
  }

  lemma FromFrom(s: Octets, offset: nat)
    requires offset < |s|
    ensures From(From(s, offset), 5) == From(s, offset + 5)
  {
  }

  method EmitDigits(s: Octets, count: nat) returns (ret: string)
    requires count <= 8
    ensures ret == Digits(s, count)
  {
    ret := "";
    for n := 0 to count
      invariant ret == Digits(s, count)[..n]
    {
      ret := ret + [Digit(s, n)];
    }
  }

  lemma {:induction false} DecodeEnds(text: string, block: Octets, toWrite: nat)
    requires |block| == 5 && toWrite < 8 && (text == [] || Stops(text[0]))
    ensures DecodeFrom(text, block, toWrite) == block[..(7 + toWrite * 5) / 8]
  {
  }

  method FromBase32Hex(input: string) returns (ret: Octets)
    ensures ret == Decode(input)
  {
    hide SetBits, Stops, Value, DecodeFrom;
    ret := [];
    var block, toWrite, n := ZERO, 0, 0;
    assert input[0..] == input;
    while n < |input|
      invariant 0 <= n <= |input| && |block| == 5 && toWrite == n % 8
      invariant ret + DecodeFrom(input[n..], block, toWrite) == Decode(input)
    {
      if Stops(input[n]) {
        break;
      }
      ghost var rest := input[n + 1..];
      assert input[n..] == [input[n]] + rest;
      DecodeUnfolds(input[n], rest, block, toWrite);
      ghost var before := ret;
      block := SetBits(block, Value(input[n]), n % 8 * 5, 5);
      toWrite := toWrite + 1;
      if toWrite == 8 {
        ret := ret + block;
        assert before + (block + DecodeFrom(rest, ZERO, 0)) == ret + DecodeFrom(rest, ZERO, 0);
        block, toWrite := ZERO, 0;
      }
      n := n + 1;
    }
    DecodeEnds(input[n..], block, toWrite);
    ret := ret + block[..(7 + toWrite * 5) / 8];
  }
}
