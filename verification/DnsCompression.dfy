/** Why suffix compression is safe: every entry of the label map names a literal label that decodes to
    the remembered suffix, so every name the writer emits can be read back where it was written. */
module DnsCompression {
  import opened Octets
  import opened DnsNames
  import opened DnsWire
  import opened DnsWriter

  /** The entry points at a literal label behind the packet header from which its key decodes. */
  ghost predicate EntryOk(v: View, e: Entry) {
    HEADER <= e.offset &&
    exists n: Name :: n != [] && ValidName(n) && e.key == Chop(n) && LiteralAt(v, e.offset, n)
  }

  ghost predicate MapOk(v: View, m: LabelMap) {
    forall i :: 0 <= i < |m| ==> EntryOk(v, m[i])
  }

  lemma MapRefines(v: View, w: View, m: LabelMap)
    requires Refines(v, w) && MapOk(v, m)
    ensures MapOk(w, m)
  {
    forall i | 0 <= i < |m|
      ensures EntryOk(w, m[i])
    {
      assert EntryOk(v, m[i]);
      var n :| n != [] && ValidName(n) && m[i].key == Chop(n) && LiteralAt(v, m[i].offset, n);
      LiteralRefines(v, w, m[i].offset, n);
    }
  }

  lemma MapConcat(v: View, a: LabelMap, b: LabelMap)
    requires MapOk(v, a) && MapOk(v, b)
    ensures MapOk(v, a + b)
  {
  }

  lemma AppendRefines(v: View, bytes: View)
    ensures Refines(v, v + bytes)
  {
  }

  /** A match in the label map decodes to the name looked up. */
  lemma {:induction false} MatchDecodes(v: View, e: Entry, n: Name)
    requires EntryOk(v, e) && n != [] && Lower(e.key) == Lower(Chop(n))
    ensures LiteralAt(v, e.offset, n)
  {
    var m :| m != [] && ValidName(m) && e.key == Chop(m) && LiteralAt(v, e.offset, m);
    ChopInjective(m, n);
    LiteralIgnoresCase(v, e.offset, m, n);
  }

  lemma ChopShrinks(n: Name)
    requires |n| > 1
    ensures |Chop(n[1..])| < |Chop(n)|
  {
  }

  ghost predicate Longer(pending: LabelMap, n: Name) {
    n != [] ==> forall i :: 0 <= i < |pending| ==> |pending[i].key| > |Chop(n)|
  }

  /** A pending entry, whose label is still being written, is too long to be found. */
  lemma {:induction false} FindSkipsPending(good: LabelMap, pending: LabelMap, n: Name)
    requires n != [] && Longer(pending, n)
    ensures var i := Find(good + pending, Chop(n)); i < |good| || i == |good + pending|
  {
    var m := good + pending;
    forall i | |good| <= i < |m|
      ensures Lower(m[i].key) != Lower(Chop(n))
    {
      assert m[i] == pending[i - |good|];
      assert |Lower(m[i].key)| > |Lower(Chop(n))|;
    }
  }

  ghost predicate Emits(v: View, n: Name, e: Emitted) {
    var w := v + e.bytes;
    e.ok && NameAt(w, |v|, n) && NameEnd(w, |v|, n) == |w| && MapOk(w, e.added)
  }

  lemma {:induction false} PointerReads(v: View, n: Name, o: Offset)
    requires HEADER <= o && n != [] && LiteralAt(v, o, n)
    ensures Emits(v, n, Emitted(true, Pointer(o), []))
  {
    var w := v + Pointer(o);
    AppendRefines(v, Pointer(o));
    LiteralRefines(v, w, o, n);
    assert w[|v|] == Pointer(o)[0] && w[|v| + 1] == Pointer(o)[1];
    assert Target(w, |v|) == o < |v|;
    assert NameAt(w, |v|, n) && !LiteralAt(w, |v|, n);
  }

  lemma {:induction false} LiteralReads(v: View, l: Label, n: Name, rest: View)
    requires ValidLabel(l)
    requires var p := v + ([|l|] + l); NameAt(p + rest, |p|, n) && NameEnd(p + rest, |p|, n) == |p + rest|
    ensures var w := v + ([|l|] + l) + rest;
            LiteralAt(w, |v|, [l] + n) && NameAt(w, |v|, [l] + n) && NameEnd(w, |v|, [l] + n) == |w|
  {
    var p := v + ([|l|] + l);
    var w := p + rest;
    var m := [l] + n;
    assert w[|v|] == |l|;
    forall i | 0 <= i < |l|
      ensures SameOctet(w[|v| + 1 + i], l[i])
    {
      assert w[|v| + 1 + i] == ([|l|] + l)[1 + i];
    }
    assert LabelBytes(w, |v| + 1, l);
    assert m[0] == l && m[1..] == n;
    assert |p| == |v| + 1 + |l|;
  }

  ghost predicate OwnEntry(own: LabelMap, n: Name, pos: nat)
    requires n != []
  {
    own == if pos < 16384 then [Entry(Chop(n), pos)] else []
  }

  /** One literal label in front of a well emitted rest is well emitted, and so is its own entry. */
  lemma ConsReads(v: View, l: Label, n: Name, own: LabelMap, rest: Emitted)
    requires HEADER <= |v| && ValidLabel(l) && ValidName(n) && OwnEntry(own, [l] + n, |v|)
    requires Emits(v + ([|l|] + l), n, rest)
    ensures Emits(v, [l] + n, Prepend([|l|] + l, own, rest))
  {
    var head := [|l|] + l;
    var e := Prepend(head, own, rest);
    var w := v + e.bytes;
    LiteralReads(v, l, n, rest.bytes);
    assert w == v + head + rest.bytes;
    if own != [] {
      assert ([l] + n)[1..] == n;
      assert EntryOk(w, own[0]);
    }
    MapConcat(w, own, rest.added);
  }

  /** Whatever was remembered before, the octets emitted for a name read back as that name, every
      pointer goes strictly backwards, and every new entry is right as well. */
  lemma {:induction false} EmitNameOk(v: View, good: LabelMap, pending: LabelMap, n: Name, compress: bool)
    requires HEADER <= |v| && ValidName(n) && MapOk(v, good) && Longer(pending, n)
    ensures Emits(v, n, EmitName(good + pending, n, compress, |v|))
    decreases |n|
  {
    var m := good + pending;
    if n == [] {
      var w := v + [0];
      assert LiteralAt(w, |v|, n);
    } else {
      var i := Find(m, Chop(n));
      FindSkipsPending(good, pending, n);
      if compress && i < |m| {
        assert m[i] == good[i] && EntryOk(v, good[i]);
        MatchDecodes(v, good[i], n);
        PointerReads(v, n, good[i].offset);
      } else {
        EmitLiteralOk(v, good, pending, n, compress);
      }
    }
  }

  lemma {:induction false} EmitNameCons(m: LabelMap, n: Name, compress: bool, pos: nat, own: LabelMap,
                     head: Bytes, next: nat)
    requires n != [] && ValidLabel(n[0]) && OwnEntry(own, n, pos)
    requires head == [|n[0]|] + n[0] && next == pos + |head|
    requires !(compress && Find(m, Chop(n)) < |m|)
    ensures EmitName(m, n, compress, pos)
         == Prepend(head, own, EmitName(m + own, n[1..], compress, next))
  {
    hide Find, Chop, ValidLabel;
  }

  lemma TailLonger(pending: LabelMap, own: LabelMap, n: Name, pos: nat)
    requires n != [] && Longer(pending, n) && OwnEntry(own, n, pos)
    ensures Longer(pending + own, n[1..])
  {
    if |n| > 1 { ChopShrinks(n); }
  }

  lemma {:induction false} EmitLiteralOk(v: View, good: LabelMap, pending: LabelMap, n: Name, compress: bool)
    requires HEADER <= |v| && n != [] && ValidName(n) && MapOk(v, good) && Longer(pending, n)
    requires !(compress && Find(good + pending, Chop(n)) < |good + pending|)
    ensures Emits(v, n, EmitName(good + pending, n, compress, |v|))
    decreases |n|, 0
  {
    var l, tail := n[0], n[1..];
    var own: LabelMap := if |v| < 16384 then [Entry(Chop(n), |v|)] else [];
    assert ValidLabel(l);
    var head: Bytes := [|l|] + l;
    var p := v + head;
    AppendRefines(v, head);
    MapRefines(v, p, good);
    TailLonger(pending, own, n, |v|);
    EmitNameOk(p, good, pending + own, tail, compress);
    var rest := EmitName((good + pending) + own, tail, compress, |p|);
    assert rest == EmitName(good + (pending + own), tail, compress, |p|) by {
      assert (good + pending) + own == good + (pending + own);
    }
    assert Emits(v, n, Prepend(head, own, rest)) by {
      assert [l] + tail == n;
      ConsReads(v, l, tail, own, rest);
    }
    EmitNameCons(good + pending, n, compress, |v|, own, head, |p|);
  }
}
