/** The packet reader: the pointer chasing name decoder and the field readers behind it. */
module DnsReader {
  import opened Octets
  import opened DnsNames
  import opened DnsWire

  const MAX_RECURSION := 10

  datatype LabelResult = GotLabel(text: Bytes, next: nat) | OutOfRange | Loop

  /** getLabelFromContent after its recursion check. Offsets count from behind the packet header, and
      the subtraction of the header size wraps around in 16 bits. */
  function ReadLabels(content: Bytes, pos: nat, ret: Bytes, recurs: nat): LabelResult
    requires recurs <= MAX_RECURSION
    decreases MAX_RECURSION - recurs, |content| - pos
  {
    if pos >= |content| then OutOfRange
    else
      var len := content[pos];
      if len == 0 then GotLabel(if ret == [] then [DOT] else ret, pos + 1)
      else if len >= 192 then
        if pos + 1 >= |content| then OutOfRange
        else if recurs == MAX_RECURSION then Loop
        else
          var target := (256 * (len as int - 192) + content[pos + 1] - HEADER) % 0x1_0000;
          match ReadLabels(content, target, ret, recurs + 1)
          case GotLabel(text, _) => GotLabel(text, pos + 2)
          case failure => failure
      else if pos + 1 + len > |content| then OutOfRange
      else ReadLabels(content, pos + 1 + len, ret + Escape(content[pos + 1..pos + 1 + len]) + [DOT], recurs)
  }

  function GetLabelFromContent(content: Bytes, pos: nat, ret: Bytes, recurs: nat): LabelResult {
    if recurs > MAX_RECURSION then Loop else ReadLabels(content, pos, ret, recurs)
  }

  lemma {:induction false} EscapeSnoc(s: Bytes, c: Byte)
    ensures Escape(s + [c]) == Escape(s) + (if Special(c) then [BACKSLASH, c] else [c])
  {
    if s == [] {
      assert s + [c] == [c];
    } else {
      assert (s + [c])[1..] == s[1..] + [c];
      EscapeSnoc(s[1..], c);
    }
  }

  /** The copying loop for one label: None when it runs off the packet. */
  method CopyLabel(content: Bytes, start: nat, len: nat, ret: Bytes) returns (ok: bool, out: Bytes)
    requires start <= |content|
    ensures ok <==> start + len <= |content|
    ensures ok ==> out == ret + Escape(content[start..start + len])
  {
    out := ret;
    var n := 0;
    while n < len
      invariant n <= len && start + n <= |content|
      invariant out == ret + Escape(content[start..start + n])
    {
      if start + n >= |content| {
        return false, out;
      }
      var c := content[start + n];
      EscapeSnoc(content[start..start + n], c);
      assert content[start..start + n] + [c] == content[start..start + n + 1];
      if Special(c) {
        out := out + [BACKSLASH];
      }
      out := out + [c];
      n := n + 1;
    }
    ok := true;
  }

  function PointerTarget(content: Bytes, pos: nat): nat
    requires pos + 1 < |content| && content[pos] >= 192
  {
    (256 * (content[pos] as int - 192) + content[pos + 1] - HEADER) % 0x1_0000
  }

  /** What the reader makes of one length octet. */
  lemma {:induction false} LengthOctet(content: Bytes, pos: nat, ret: Bytes, recurs: nat)
    requires recurs <= MAX_RECURSION && pos < |content|
    ensures var len, r := content[pos], ReadLabels(content, pos, ret, recurs);
            && (len == 0 ==> r == GotLabel(if ret == [] then [DOT] else ret, pos + 1))
            && (len >= 192 && pos + 1 >= |content| ==> r == OutOfRange)
            && (len >= 192 && pos + 1 < |content| ==>
                  var s := GetLabelFromContent(content, PointerTarget(content, pos), ret, recurs + 1);
                  r == if s.GotLabel? then GotLabel(s.text, pos + 2) else s)
            && (0 < len < 192 && pos + 1 + len > |content| ==> r == OutOfRange)
            && (0 < len < 192 && pos + 1 + len <= |content| ==>
                  r == ReadLabels(content, pos + 1 + len, ret + Escape(content[pos + 1..pos + 1 + len]) + [DOT], recurs))
  {
  }

  method GetLabel(content: Bytes, start: nat, prefix: Bytes, recurs: nat) returns (r: LabelResult)
    ensures r == GetLabelFromContent(content, start, prefix, recurs)
    decreases MAX_RECURSION + 1 - recurs
  {
    if recurs > MAX_RECURSION {
      return Loop;
    }
    hide ReadLabels, Escape;
    var pos, ret := start, prefix;
    while pos < |content|
      invariant ReadLabels(content, start, prefix, recurs) == ReadLabels(content, pos, ret, recurs)
      decreases |content| - pos
    {
      LengthOctet(content, pos, ret, recurs);
      var len := content[pos];
      if len == 0 {
        return GotLabel(if ret == [] then [DOT] else ret, pos + 1);
      }
      if len >= 192 {
        if pos + 1 >= |content| {
          return OutOfRange;
        }
        var target := (256 * (len as int - 192) + content[pos + 1] - HEADER) % 0x1_0000;
        r := GetLabel(content, target, ret, recurs + 1);
        if r.GotLabel? {
          r := r.(next := pos + 2);
        }
        return;
      }
      var ok, out := CopyLabel(content, pos + 1, len, ret);
      if !ok {
        return OutOfRange;
      }
      ret := out + [DOT];
      pos := pos + 1 + len;
    }
    OffTheEnd(content, pos, ret, recurs);
    return OutOfRange;
  }

  lemma {:induction false} OffTheEnd(content: Bytes, pos: nat, ret: Bytes, recurs: nat)
    requires recurs <= MAX_RECURSION && pos >= |content|
    ensures ReadLabels(content, pos, ret, recurs) == OutOfRange
  {
  }

  // ---- Reading what the wire format describes -------------------------------------------------

  ghost function Finish(ret: Bytes, n: Name): Bytes {
    if ret == [] && n == [] then [DOT] else ret + Dotted(n)
  }

  lemma LabelSlice(packet: Bytes, pos: nat, l: Label)
    requires LabelBytes(packet, pos, l)
    ensures Lower(packet[pos..pos + |l|]) == Lower(l)
  {
    forall i | 0 <= i < |l|
      ensures Lower(packet[pos..pos + |l|])[i] == Lower(l)[i]
    {
      assert SameOctet(packet[pos + i], l[i]);
    }
  }

  lemma {:induction false} FinishCons(ret: Bytes, x: Label, n: Name)
    requires n != [] && Lower(x) == Lower(n[0])
    ensures Lower(Finish(ret + Escape(x) + [DOT], n[1..])) == Lower(Finish(ret, n))
  {
    hide Escape, Lower;
    var d := Dotted(n[1..]);
    assert ret + Escape(x) + [DOT] + d == ret + (Escape(x) + ([DOT] + d));
    assert ret + Dotted(n) == ret + (Escape(n[0]) + ([DOT] + d));
    LowerEscape(x);
    LowerEscape(n[0]);
    LowerConcat(ret, Escape(x) + ([DOT] + d));
    LowerConcat(ret, Escape(n[0]) + ([DOT] + d));
    LowerConcat(Escape(x), [DOT] + d);
    LowerConcat(Escape(n[0]), [DOT] + d);
  }

  ghost predicate Reads(r: LabelResult, text: Bytes, next: nat) {
    r.GotLabel? && r.next == next && Lower(r.text) == Lower(text)
  }

  lemma {:induction false} StepLabel(content: Bytes, at: nat, next: nat, ret: Bytes, out: Bytes, recurs: nat)
    requires recurs <= MAX_RECURSION && at < |content| && 0 < content[at] < 192
    requires next == at + 1 + content[at] <= |content|
    requires out == ret + Escape(content[at + 1..next]) + [DOT]
    ensures ReadLabels(content, at, ret, recurs) == ReadLabels(content, next, out, recurs)
  {
  }

  lemma StepPointer(content: Bytes, at: nat, target: nat, ret: Bytes, recurs: nat)
    requires recurs < MAX_RECURSION && at + 1 < |content| && content[at] >= 192 && target < 0x1_0000
    requires target == 256 * (content[at] as int - 192) + content[at + 1] - HEADER
    ensures ReadLabels(content, at, ret, recurs)
         == var r := ReadLabels(content, target, ret, recurs + 1); if r.GotLabel? then GotLabel(r.text, at + 2) else r
  {
  }

  /** The reader returns the encoded name up to case exactly when it needs no more than the remaining
      number of hops, and otherwise it reports a loop. */
  lemma {:induction false} ReadsName(packet: Bytes, pos: nat, n: Name, ret: Bytes, recurs: nat, at: nat)
    requires NameAt(packet, pos, n) && pos == at + HEADER && |packet| < 0x1_0000 && recurs <= MAX_RECURSION
    ensures |packet| >= HEADER
    ensures var r := ReadLabels(packet[HEADER..], at, ret, recurs);
            if recurs + Hops(packet, pos, n) <= MAX_RECURSION
            then Reads(r, Finish(ret, n), NameEnd(packet, pos, n) - HEADER) else r == Loop
    decreases |n|, 1
  {
    hide LiteralAt, LiteralHops, NameAt, Hops, NameEnd, PointerAt, Target, ReadLabels, Finish;
    var t := NameIs(packet, pos, n);
    if LiteralAt(packet, pos, n) {
      ReadsLiteral(packet, pos, n, ret, recurs, at);
    } else {
      ReadsPointer(packet, pos, t, ret, recurs, at);
      if recurs < MAX_RECURSION {
        ReadsLiteral(packet, t + HEADER, n, ret, recurs + 1, t);
      }
    }
  }

  /** A name is there literally, or behind one pointer. */
  lemma {:induction false} NameIs(v: View, pos: nat, n: Name) returns (t: nat)
    requires NameAt(v, pos, n)
    ensures LiteralAt(v, pos, n) ==> Hops(v, pos, n) == LiteralHops(v, pos, n)
    ensures !LiteralAt(v, pos, n) ==>
              && PointerAt(v, pos) && Target(v, pos) == t + HEADER < |v| && LiteralAt(v, t + HEADER, n)
              && Hops(v, pos, n) == 1 + LiteralHops(v, t + HEADER, n) && NameEnd(v, pos, n) == pos + 2
  {
    t := 0;
    if !LiteralAt(v, pos, n) { t := Target(v, pos) - HEADER; }
  }

  /** The reader follows a pointer while it has hops left. */
  lemma {:induction false} ReadsPointer(packet: Bytes, pos: nat, t: nat, ret: Bytes, recurs: nat, at: nat)
    requires PointerAt(packet, pos) && pos == at + HEADER && recurs <= MAX_RECURSION && |packet| >= HEADER
    requires HEADER <= Target(packet, pos) == t + HEADER
    ensures ReadLabels(packet[HEADER..], at, ret, recurs)
         == if recurs == MAX_RECURSION then Loop
            else var r := ReadLabels(packet[HEADER..], t, ret, recurs + 1); if r.GotLabel? then GotLabel(r.text, at + 2) else r
  {
    var content := packet[HEADER..];
    assert content[at] == packet[pos] && content[at + 1] == packet[pos + 1];
    if recurs < MAX_RECURSION {
      hide ReadLabels;
      StepPointer(content, at, t, ret, recurs);
    }
  }

  /** The reader takes the first label of a literal name and goes on behind it. */
  lemma {:induction false} ReadsHead(packet: Bytes, pos: nat, n: Name, ret: Bytes, recurs: nat, at: nat) returns (next: nat, x: Label)
    requires LiteralAt(packet, pos, n) && n != [] && pos == at + HEADER && recurs <= MAX_RECURSION
    ensures |packet| >= HEADER && next + HEADER == pos + 1 + |n[0]| && Lower(x) == Lower(n[0])
    ensures NameAt(packet, next + HEADER, n[1..])
    ensures LiteralHops(packet, pos, n) == Hops(packet, next + HEADER, n[1..])
    ensures NameEnd(packet, pos, n) == NameEnd(packet, next + HEADER, n[1..])
    ensures ReadLabels(packet[HEADER..], at, ret, recurs) == ReadLabels(packet[HEADER..], next, ret + Escape(x) + [DOT], recurs)
  {
    hide ReadLabels, Escape;
    var content := packet[HEADER..];
    assert content[at] == packet[pos];
    next := at + 1 + |n[0]|;
    x := content[at + 1..next];
    assert x == packet[pos + 1..pos + 1 + |n[0]|];
    LabelSlice(packet, pos + 1, n[0]);
    StepLabel(content, at, next, ret, ret + Escape(x) + [DOT], recurs);
  }

  lemma {:induction false} ReadsEnd(packet: Bytes, pos: nat, ret: Bytes, recurs: nat, at: nat)
    requires LiteralAt(packet, pos, []) && pos == at + HEADER && recurs <= MAX_RECURSION
    ensures |packet| >= HEADER && LiteralHops(packet, pos, []) == 0
    ensures Reads(ReadLabels(packet[HEADER..], at, ret, recurs), Finish(ret, []), NameEnd(packet, pos, []) - HEADER)
  {
    assert packet[HEADER..][at] == packet[pos] == 0;
    assert ret + [] == ret;
  }

  lemma {:induction false} ReadsLiteral(packet: Bytes, pos: nat, n: Name, ret: Bytes, recurs: nat, at: nat)
    requires LiteralAt(packet, pos, n) && pos == at + HEADER && |packet| < 0x1_0000 && recurs <= MAX_RECURSION
    ensures |packet| >= HEADER
    ensures var r := ReadLabels(packet[HEADER..], at, ret, recurs);
            if recurs + LiteralHops(packet, pos, n) <= MAX_RECURSION
            then Reads(r, Finish(ret, n), NameEnd(packet, pos, n) - HEADER) else r == Loop
    decreases |n|, 0
  {
    hide LiteralAt, LiteralHops, NameAt, Hops, NameEnd, ReadLabels, Finish, Escape;
    if n == [] {
      ReadsEnd(packet, pos, ret, recurs, at);
    } else {
      var next, x := ReadsHead(packet, pos, n, ret, recurs, at);
      FinishCons(ret, x, n);
      ReadsName(packet, next + HEADER, n[1..], ret + Escape(x) + [DOT], recurs, next);
    }
  }
}
