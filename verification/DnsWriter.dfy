/** The packet writer: names with suffix compression, the pending record and its header, commit and
    rollback. Class PacketWriter is the writer itself; datatype Writer is its state as a value, and
    every method is specified by a function on that value. */
module DnsWriter {
  import opened Octets
  import opened DnsNames
  import opened DnsWire

  /** A compression pointer has 14 bits. */
  type Offset = o: nat | o < 16384

  datatype Entry = Entry(key: Bytes, offset: Offset)
  type LabelMap = seq<Entry>

  datatype Place = ANSWER | AUTHORITY | ADDITIONAL

  // ---- Emitting one name ----------------------------------------------------------------------

  /** The index of the first entry whose key equals the given one up to case, or the size. */
  function Find(m: LabelMap, key: Bytes): (i: nat)
    ensures i <= |m|
    ensures i < |m| ==> Lower(m[i].key) == Lower(key)
    ensures forall j :: 0 <= j < i ==> Lower(m[j].key) != Lower(key)
  {
    if m == [] then 0
    else if Lower(m[0].key) == Lower(key) then 0
    else 1 + Find(m[1..], key)
  }

  method FindEntry(m: LabelMap, key: Bytes) returns (i: nat)
    ensures i == Find(m, key)
  {
    i := 0;
    while i < |m|
      invariant i <= |m| && Find(m, key) == i + Find(m[i..], key)
    {
      var same := IEquals(m[i].key, key);
      if same { break; }
      assert m[i..][1..] == m[i + 1..];
      i := i + 1;
    }
  }

  function Pointer(o: Offset): (r: Bytes)
    ensures |r| == 2 && r[0] >= 192 && 256 * (r[0] as int - 192) + r[1] == o
  {
    [192 + o / 256, o % 256]
  }

  ghost predicate SpansOf(text: Bytes, parts: seq<Span>) {
    forall i :: 0 <= i < |parts| ==> parts[i].first <= parts[i].last <= |text| + 1 && parts[i].first < |text|
  }

  function CString(s: Bytes): Bytes {
    if s == [] || s[0] == 0 then [] else [s[0]] + CString(s[1..])
  }

  /** The text remembered for the suffix starting at first: never with the trailing dot. */
  function Chopped(text: Bytes, first: nat): Bytes
    requires first < |text|
  {
    if text[|text| - 1] == DOT then text[first..|text| - 1] else CString(text[first..])
  }

  /** The octets of one span, read from the zero terminated text. */
  function PartBytes(text: Bytes, part: Span, unescaped: bool): Bytes
    requires part.first <= part.last <= |text| + 1
  {
    var raw := (text + [0])[part.first..part.last];
    if unescaped then Unescape(raw) else raw
  }

  datatype Emitted = Emitted(ok: bool, bytes: Bytes, added: LabelMap)

  function Prepend(bytes: Bytes, added: LabelMap, e: Emitted): Emitted {
    Emitted(e.ok, bytes + e.bytes, added + e.added)
  }

  /** One turn of the span loop: the text to look up and the octets to write if it is not found. */
  datatype Piece = Piece(key: Bytes, body: Bytes)

  function Pieces(text: Bytes, parts: seq<Span>, unescaped: bool): seq<Piece>
    requires SpansOf(text, parts)
  {
    if parts == [] then []
    else [Piece(Chopped(text, parts[0].first), PartBytes(text, parts[0], unescaped))] + Pieces(text, parts[1..], unescaped)
  }

  /** What one turn appends and remembers; more is false when the loop is left, ok when it does not throw. */
  datatype Turn = Turn(more: bool, ok: bool, bytes: Bytes, own: LabelMap)

  function TurnOf(m: LabelMap, piece: Piece, unescaped: bool, compress: bool, pos: nat): Turn {
    var i := Find(m, piece.key);
    if compress && i < |m| then Turn(false, true, Pointer(m[i].offset), [])
    else
      var own := if pos < 16384 then [Entry(piece.key, pos)] else [];
      if unescaped && |piece.body| > 255 then Turn(false, false, [], own)
      else Turn(true, true, [|piece.body| % 256] + piece.body, own)
  }

  /** What the span loop of xfrLabel appends and remembers; ok is false when it throws. */
  function EmitPieces(m: LabelMap, pieces: seq<Piece>, unescaped: bool, compress: bool, pos: nat): Emitted
    decreases |pieces|
  {
    if pieces == [] then Emitted(true, [0], [])
    else
      var t := TurnOf(m, pieces[0], unescaped, compress, pos);
      if t.more then Prepend(t.bytes, t.own, EmitPieces(m + t.own, pieces[1..], unescaped, compress, pos + |t.bytes|))
      else Emitted(t.ok, t.bytes, t.own)
  }

  /** The same for a name given as labels. */
  function EmitName(m: LabelMap, n: Name, compress: bool, pos: nat): Emitted
    decreases |n|
  {
    if n == [] then Emitted(true, [0], [])
    else
      var i := Find(m, Chop(n));
      if compress && i < |m| then Emitted(true, Pointer(m[i].offset), [])
      else
        var added := if pos < 16384 then [Entry(Chop(n), pos)] else [];
        Prepend([|n[0]| % 256] + n[0], added, EmitName(m + added, n[1..], compress, pos + |n[0]| + 1))
  }

  lemma {:induction false} PartOfEscape(text: Bytes, at: nat, q: nat, l: Label, unescaped: bool)
    requires at <= q <= |text| && text[at..q] == Escape(l)
    requires NeedsEscape(l) ==> unescaped
    ensures PartBytes(text, Span(at, q), unescaped) == l
  {
    assert (text + [0])[at..q] == text[at..q];
    UnescapeEscape(l);
    if !unescaped { PlainEscape(l); }
  }

  lemma SliceOfSuffix(text: Bytes, at: nat, u: Bytes, k: nat)
    requires at <= |text| && text[at..] == u && k <= |u|
    ensures at + k <= |text| && text[at + k..] == u[k..] && text[at..at + k] == u[..k]
  {
  }

  lemma {:induction false} HeadOfDotted(n: Name)
    requires n != []
    ensures var k := |Escape(n[0])|;
            k < |Dotted(n)| && Dotted(n)[..k] == Escape(n[0]) && Dotted(n)[k + 1..] == Dotted(n[1..])
  {
    var e, r := Escape(n[0]), Dotted(n[1..]);
    assert Dotted(n) == e + [DOT] + r;
    assert (e + [DOT] + r)[|e| + 1..] == r;
  }

  lemma {:induction false} ChoppedOfDotted(text: Bytes, at: nat, n: Name)
    requires n != [] && at <= |text| && text[at..] == Dotted(n)
    ensures at < |text| && Chopped(text, at) == Chop(n)
  {
    DottedNonEmpty(n);
    var u := Dotted(n);
    SliceOfSuffix(text, at, u, |u| - 1);
    assert text[|text| - 1] == u[|u| - 1];
  }

  /** The first span of a dotted text holds the first label, and the rest is the rest. */
  lemma {:induction false} HeadSpan(text: Bytes, at: nat, q: nat, n: Name, unescaped: bool)
    requires n != [] && at <= |text| && text[at..] == Dotted(n)
    requires q == at + |Escape(n[0])|
    requires NeedsEscape(n[0]) ==> unescaped
    ensures q + 1 <= |text| && text[q + 1..] == Dotted(n[1..])
    ensures PartBytes(text, Span(at, q), unescaped) == n[0]
  {
    HeadOfDotted(n);
    SliceOfSuffix(text, at, Dotted(n), q - at);
    SliceOfSuffix(text, at, Dotted(n), q - at + 1);
    PartOfEscape(text, at, q, n[0], unescaped);
  }

  function NamePieces(n: Name): (r: seq<Piece>) {
    if n == [] then [] else [Piece(Chop(n), n[0])] + NamePieces(n[1..])
  }

  lemma {:induction false} PiecesUncons(text: Bytes, parts: seq<Span>, unescaped: bool)
    requires SpansOf(text, parts) && parts != []
    ensures SpansOf(text, parts[1..])
    ensures var r := Pieces(text, parts, unescaped);
            && r != []
            && r[0] == Piece(Chopped(text, parts[0].first), PartBytes(text, parts[0], unescaped))
            && r[1..] == Pieces(text, parts[1..], unescaped)
  {
  }

  lemma {:induction false} SpansUncons(n: Name, at: nat, q: nat, rest: nat)
    requires n != [] && q == at + |Escape(n[0])| && rest == q + 1
    ensures Spans(n, at)[0] == Span(at, q) && Spans(n, at)[1..] == Spans(n[1..], rest)
  {
  }

  lemma {:induction false} PiecesOfName(text: Bytes, at: nat, n: Name, unescaped: bool)
    requires at <= |text| && text[at..] == Dotted(n)
    requires AnyEscape(n) ==> unescaped
    requires SpansOf(text, Spans(n, at))
    ensures Pieces(text, Spans(n, at), unescaped) == NamePieces(n)
    decreases |n|
  {
    if n != [] {
      var q := at + |Escape(n[0])|;
      HeadSpan(text, at, q, n, unescaped);
      ChoppedOfDotted(text, at, n);
      SpansUncons(n, at, q, q + 1);
      PiecesUncons(text, Spans(n, at), unescaped);
      PiecesOfName(text, q + 1, n[1..], unescaped);
    }
  }

  lemma {:induction false} EmitPiecesOfName(m: LabelMap, n: Name, unescaped: bool, compress: bool, pos: nat)
    requires ValidName(n)
    ensures EmitPieces(m, NamePieces(n), unescaped, compress, pos) == EmitName(m, n, compress, pos)
    decreases |n|
  {
    if n != [] {
      assert ValidLabel(n[0]);
      assert NamePieces(n)[1..] == NamePieces(n[1..]);
      var added := if pos < 16384 then [Entry(Chop(n), pos)] else [];
      EmitPiecesOfName(m + added, n[1..], unescaped, compress, pos + |n[0]| + 1);
    }
  }

  // ---- The writer as a value ------------------------------------------------------------------

  /** d_stuff between the question and the first record. */
  const NO_RECORD: Word16 := 0xffff

  /** What startRecord remembers for the record header. */
  datatype Head = Head(name: Bytes, rtype: Word16, rclass: Word16, ttl: Word32, place: Place)

  datatype Writer = Writer(
    content: Bytes, record: Bytes, qname: Bytes, head: Head, labels: LabelMap,
    stuff: Word16, sor: Word16, marker: Word16, canonic: bool)

  /** ok is false when the call throws; w is the state it leaves behind. */
  datatype Outcome = Outcome(ok: bool, w: Writer)

  function LabelOf(w: Writer, text: Bytes, compress: bool): Emitted {
    if text == [DOT] then Emitted(true, [0], [])
    else
      var t := Tokenize(text, 0, 0);
      EmitPieces(w.labels, Pieces(text, t.parts, t.unescaped), t.unescaped, compress && !w.canonic, Position(w))
  }

  /** Where the next octet will end up in the packet, counting what is still to be put in between. */
  function Position(w: Writer): nat {
    |w.content| + |w.record| + w.stuff
  }

  function Written(w: Writer, e: Emitted): Outcome {
    Outcome(e.ok, w.(record := w.record + e.bytes, labels := w.labels + e.added))
  }

  function XfrLabel(w: Writer, text: Bytes, compress: bool): Outcome {
    Written(w, LabelOf(w, text, compress))
  }

  /** One turn of the loop moves its octets and its entry from what is still to come to what is there. */
  lemma {:induction false} EmitMore(m: LabelMap, left: seq<Piece>, unescaped: bool, compress: bool, pos: nat, p: Bytes, t: Turn, next: nat)
    requires left != [] && t == TurnOf(m, left[0], unescaped, compress, pos) && t.more && next == pos + |t.bytes|
    ensures var rest := EmitPieces(m, left, unescaped, compress, pos);
            var e := EmitPieces(m + t.own, left[1..], unescaped, compress, next);
            rest.ok == e.ok && p + rest.bytes == p + t.bytes + e.bytes && m + rest.added == m + t.own + e.added
  {
    PrependAppended(p, m, t, EmitPieces(m + t.own, left[1..], unescaped, compress, next));
  }

  lemma PrependAppended(p: Bytes, m: LabelMap, t: Turn, e: Emitted)
    ensures p + Prepend(t.bytes, t.own, e).bytes == p + t.bytes + e.bytes
    ensures m + Prepend(t.bytes, t.own, e).added == m + t.own + e.added
  {
    assert p + (t.bytes + e.bytes) == p + t.bytes + e.bytes;
    assert m + (t.own + e.added) == m + t.own + e.added;
  }

  function XfrBytes(w: Writer, b: Bytes): Writer {
    w.(record := w.record + b)
  }

  function HeaderOctets(opcode: Byte): (r: Bytes)
    ensures |r| == HEADER
  {
    [0, 0, opcode % 16 * 8, 0, 0, 1, 0, 0, 0, 0, 0, 0]
  }

  function CountAt(p: Place): (i: nat)
    ensures i + 2 <= HEADER
  {
    match p case ANSWER => 6 case AUTHORITY => 8 case ADDITIONAL => 10
  }

  /** Adds one to a section count, modulo 2^16. */
  function BumpCount(content: Bytes, p: Place): (r: Bytes)
    ensures |r| == |content|
  {
    if |content| < HEADER then content
    else
      var i := CountAt(p);
      var count := 256 * (content[i] as int) + content[i + 1] + 1;
      content[i := count / 256 % 256][i + 1 := count % 256]
  }

  function RecordHeader(h: Head, clen: nat): (r: Bytes)
    ensures |r| == RECORD_HEADER
  {
    Be16(h.rtype) + Be16(h.rclass) + Be32(h.ttl) + Be16(clen)
  }

  function Commit(w: Writer): Outcome {
    if w.stuff == NO_RECORD && (|w.content| != w.sor || w.record != []) then Outcome(false, w)
    else
      var header := RecordHeader(w.head, |w.record| % 0x1_0000);
      Outcome(true, w.(content := BumpCount(w.content + header + w.record, w.head.place), record := [], stuff := 0))
  }

  /** The owner name goes straight into the content, as "see question" when it equals the question. */
  function OwnerName(w: Writer, name: Bytes): Outcome {
    if Lower(w.qname) == Lower(name) then Outcome(true, w.(content := w.content + [0xc0, 0x0c]))
    else
      var o := XfrLabel(w, name, true);
      if o.ok then Outcome(true, o.w.(content := o.w.content + o.w.record, record := [])) else o
  }

  function StartOwner(w: Writer, h: Head): Outcome {
    var o := OwnerName(w.(head := h, stuff := 0, marker := |w.content| % 0x1_0000), h.name);
    if o.ok then Outcome(true, OwnerDone(o.w)) else o
  }

  function OwnerDone(w: Writer): Writer {
    w.(stuff := RECORD_HEADER, sor := (|w.content| + RECORD_HEADER) % 0x1_0000)
  }

  function StartRecord(w: Writer, h: Head): Outcome {
    if w.record == [] then StartOwner(w, h)
    else
      var c := Commit(w);
      if !c.ok then c else StartOwner(c.w, h)
  }

  function Resize(s: Bytes, n: nat): Bytes {
    if n <= |s| then s[..n] else s + seq(n - |s|, i => 0 as Byte)
  }

  function Rollback(w: Writer): Writer {
    w.(content := Resize(w.content, w.marker), record := [], stuff := 0)
  }

  /** The constructor: header and question. */
  function NewPacket(w: Writer, qname: Bytes, qtype: Word16, qclass: Word16, opcode: Byte): Outcome {
    var v := w.(content := HeaderOctets(opcode), record := [], qname := qname, labels := [], stuff := 0, canonic := false);
    var o := XfrLabel(v, qname, false);
    if !o.ok then o
    else
      Outcome(true, o.w.(content := o.w.content + o.w.record + Be16(qtype) + Be16(qclass), record := [], stuff := NO_RECORD))
  }

  // ---- The writer -----------------------------------------------------------------------------

  class PacketWriter {
    var content: Bytes
    var pending: Bytes
    var qname: Bytes
    var recordHead: Head
    var labelmap: LabelMap
    var stuff: Word16
    var sor: Word16
    var rollbackMarker: Word16
    var canonic: bool

    ghost function State(): Writer
      reads this
    {
      Writer(content, pending, qname, recordHead, labelmap, stuff, sor, rollbackMarker, canonic)
    }

    method Open(name: Bytes, qtype: Word16, qclass: Word16, opcode: Byte) returns (ok: bool)
      modifies this
      ensures Outcome(ok, State()) == NewPacket(old(State()), name, qtype, qclass, opcode)
    {
      content, pending, qname, labelmap := HeaderOctets(opcode), [], name, [];
      stuff, canonic := 0, false;
      ghost var v := State();
      assert v == old(State()).(content := HeaderOctets(opcode), record := [], qname := name, labels := [], stuff := 0, canonic := false);
      ok := WriteLabel(name, false);
      ghost var o := XfrLabel(v, name, false);
      assert Outcome(ok, State()) == o;
      if ok {
        content := content + pending + Be16(qtype) + Be16(qclass);
        pending := [];
        stuff := NO_RECORD;
        assert State() == o.w.(content := o.w.content + o.w.record + Be16(qtype) + Be16(qclass), record := [], stuff := NO_RECORD);
      }
    }

    /** One turn of the span loop: look the suffix up, remember it, write its label. */
    method WriteSpan(text: Bytes, span: Span, unescaped: bool, compress: bool, pos: nat) returns (more: bool, ok: bool, wrote: nat)
      requires span.first <= span.last <= |text| + 1 && span.first < |text|
      modifies this`pending, this`labelmap
      ensures var t := TurnOf(old(labelmap), Piece(Chopped(text, span.first), PartBytes(text, span, unescaped)), unescaped, compress, pos);
              && more == t.more && ok == t.ok && wrote == |t.bytes|
              && pending == old(pending) + t.bytes && labelmap == old(labelmap) + t.own
    {
      var key := Chopped(text, span.first);
      if compress {
        var li := FindEntry(labelmap, key);
        if li < |labelmap| {
          pending := pending + Pointer(labelmap[li].offset);
          return false, true, 2;
        }
      }
      if pos < 16384 {
        labelmap := labelmap + [Entry(key, pos)];
      }
      var part := PartBytes(text, span, unescaped);
      if unescaped && |part| > 255 {
        return false, false, 0;
      }
      var bytes: Bytes := [|part| % 256] + part;
      pending := pending + bytes;
      return true, true, |part| + 1;
    }

    /** The span loop. */
    method WriteSpans(text: Bytes, parts: seq<Span>, unescaped: bool, compress: bool, start: nat) returns (ok: bool)
      requires SpansOf(text, parts)
      modifies this`pending, this`labelmap
      ensures var e := EmitPieces(old(labelmap), Pieces(text, parts, unescaped), unescaped, compress, start);
              ok == e.ok && pending == old(pending) + e.bytes && labelmap == old(labelmap) + e.added
    {
      var pos, todo := start, parts;
      ghost var left := Pieces(text, parts, unescaped);
      ghost var rest := EmitPieces(labelmap, left, unescaped, compress, pos);
      ghost var finally, bytes, labels := rest.ok, pending + rest.bytes, labelmap + rest.added;
      while todo != []
        invariant SpansOf(text, todo) && left == Pieces(text, todo, unescaped)
        invariant rest == EmitPieces(labelmap, left, unescaped, compress, pos)
        invariant rest.ok == finally && pending + rest.bytes == bytes && labelmap + rest.added == labels
        decreases |todo|
      {
        PiecesUncons(text, todo, unescaped);
        ghost var t := TurnOf(labelmap, left[0], unescaped, compress, pos);
        ghost var p, m, at := pending, labelmap, pos;
        var more, good, wrote := WriteSpan(text, todo[0], unescaped, compress, pos);
        if !more {
          return good;
        }
        pos, todo := pos + wrote, todo[1..];
        EmitMore(m, left, unescaped, compress, at, p, t, pos);
        left := left[1..];
        rest := EmitPieces(labelmap, left, unescaped, compress, pos);
      }
      pending := pending + [0];
      return true;
    }

    method WriteLabel(text: Bytes, compress: bool) returns (ok: bool)
      modifies this`pending, this`labelmap
      ensures var e := LabelOf(old(State()), text, compress);
              ok == e.ok && pending == old(pending) + e.bytes && labelmap == old(labelmap) + e.added
    {
      if text == [DOT] {
        pending := pending + [0];
        return true;
      }
      var parts, unescaped := LabeltokUnescape(text);
      var pos: nat := |content| + |pending| + stuff;
      assert pos == Position(State()) && Tokenize(text, 0, 0) == Tokens(parts, unescaped);
      ok := WriteSpans(text, parts, unescaped, compress && !canonic, pos);
    }

    method WriteBytes(b: Bytes)
      modifies this`pending
      ensures State() == XfrBytes(old(State()), b)
    {
      pending := pending + b;
    }

    method BeginRecord(name: Bytes, qtype: Word16, ttl: Word32, qclass: Word16, place: Place) returns (ok: bool)
      modifies this
      ensures Outcome(ok, State()) == StartRecord(old(State()), Head(name, qtype, qclass, ttl, place))
    {
      if pending != [] {
        ok := CommitRecord();
        if !ok { return; }
      }
      ok := WriteOwner(Head(name, qtype, qclass, ttl, place));
    }

    method WriteOwner(h: Head) returns (ok: bool)
      modifies this
      ensures Outcome(ok, State()) == StartOwner(old(State()), h)
    {
      recordHead := h;
      stuff := 0;
      rollbackMarker := |content| % 0x1_0000;
      ok := WriteOwnerName(h.name);
      if !ok { return; }
      stuff := RECORD_HEADER;
      sor := (|content| + stuff) % 0x1_0000;
    }

    method WriteOwnerName(name: Bytes) returns (ok: bool)
      modifies this
      ensures Outcome(ok, State()) == OwnerName(old(State()), name)
    {
      var same := IEquals(qname, name);
      if same {
        content := content + [0xc0, 0x0c];
        return true;
      }
      ghost var o := XfrLabel(State(), name, true);
      ok := WriteLabel(name, true);
      assert Outcome(ok, State()) == o;
      if !ok { return; }
      content := content + pending;
      pending := [];
      assert State() == o.w.(content := o.w.content + o.w.record, record := []);
    }

    method CommitRecord() returns (ok: bool)
      modifies this
      ensures Outcome(ok, State()) == Commit(old(State()))
    {
      if stuff == NO_RECORD && (|content| != sor || pending != []) {
        return false;
      }
      content := content + RecordHeader(recordHead, |pending| % 0x1_0000);
      stuff := 0;
      content := content + pending;
      content := BumpCount(content, recordHead.place);
      pending := [];
      return true;
    }

    method RollbackRecord()
      modifies this
      ensures State() == Rollback(old(State()))
    {
      content := Resize(content, rollbackMarker);
      pending := [];
      stuff := 0;
    }
  }
}
