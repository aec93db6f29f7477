/** The writer and the parser together: what is written as question and records is what is parsed, and
    a final rollback leaves exactly the committed records. */
module DnsPacket {
  import opened Octets
  import opened DnsNames
  import opened DnsWire
  import opened DnsWriter
  import opened DnsCompression
  import opened DnsRecords

  /** The question a packet is opened with. */
  datatype Ask = Ask(name: Name, qtype: Word16, qclass: Word16, opcode: Byte)

  // ---- Writing a record -----------------------------------------------------------------------

  function WriteField(w: Writer, f: Field): Outcome {
    if f.FName? then XfrLabel(w, Text(f.name), f.compress) else Outcome(true, XfrBytes(w, f.Octets()))
  }

  function WriteFields(w: Writer, fs: seq<Field>): Outcome
    decreases |fs|
  {
    if fs == [] then Outcome(true, w)
    else
      var o := WriteField(w, fs[0]);
      if o.ok then WriteFields(o.w, fs[1..]) else o
  }

  /** The conv.xfr* call of one field. */
  method PutField(w: PacketWriter, f: Field) returns (ok: bool)
    modifies w
    ensures Outcome(ok, w.State()) == WriteField(old(w.State()), f)
  {
    if f.FName? {
      ghost var o := XfrLabel(w.State(), Text(f.name), f.compress);
      ok := w.WriteLabel(Text(f.name), f.compress);
      assert Outcome(ok, w.State()) == o;
    } else {
      w.WriteBytes(f.Octets());
      ok := true;
    }
  }

  /** The content of one record. */
  method PutFields(w: PacketWriter, fs: seq<Field>) returns (ok: bool)
    modifies w
    ensures Outcome(ok, w.State()) == WriteFields(old(w.State()), fs)
  {
    hide WriteField;
    var i := 0;
    ok := true;
    while i < |fs|
      invariant i <= |fs| && WriteFields(old(w.State()), fs) == WriteFields(w.State(), fs[i..])
    {
      ghost var rest := fs[i..];
      ok := PutField(w, fs[i]);
      if !ok { return; }
      assert rest[1..] == fs[i + 1..];
      i := i + 1;
    }
  }

  lemma {:induction false} LabelOfName(w: Writer, n: Name, compress: bool)
    requires ValidName(n)
    ensures LabelOf(w, Text(n), compress) == EmitName(w.labels, n, compress && !w.canonic, Position(w))
  {
    if n != [] {
      var text := Text(n);
      TextOfLabels(n);
      assert text[0..] == Dotted(n);
      TokenizeDotted(text, 0, n);
      PiecesOfName(text, 0, n, AnyEscape(n));
      EmitPiecesOfName(w.labels, n, AnyEscape(n), compress && !w.canonic, Position(w));
    }
  }

  // ---- What the content says ------------------------------------------------------------------

  /** The content as a view: the packet header may still change. */
  ghost function Base(content: Bytes): View
    requires |content| >= HEADER
    ensures |Base(content)| == |content|
  {
    Holes(HEADER) + content[HEADER..]
  }

  /** The packet as it will be after commit, with the pending record header still open. */
  ghost function ViewOf(w: Writer): View
    requires |w.content| >= HEADER
    ensures |ViewOf(w)| == Position(w)
  {
    Base(w.content) + Holes(w.stuff) + w.record
  }

  ghost predicate QuestionAt(v: View, a: Ask) {
    LiteralAt(v, HEADER, a.name) && BytesAt(v, NameEnd(v, HEADER, a.name), Be16(a.qtype) + Be16(a.qclass))
  }

  ghost function QuestionEnd(v: View, a: Ask): nat
    requires QuestionAt(v, a)
  {
    NameEnd(v, HEADER, a.name) + 4
  }

  /** The question, the records in order, and nothing else. */
  ghost predicate Holds(v: View, a: Ask, rs: seq<Record>) {
    QuestionAt(v, a) && RecordsAt(v, QuestionEnd(v, a), rs) && RecordsEnd(v, QuestionEnd(v, a), rs) == |v|
  }

  function CountOf(rs: seq<Record>, p: Place): nat {
    if rs == [] then 0 else CountOf(rs[..|rs| - 1], p) + (if rs[|rs| - 1].place == p then 1 else 0)
  }

  predicate HeaderSays(content: Bytes, a: Ask, rs: seq<Record>) {
    |content| >= HEADER && content[..6] == HeaderOctets(a.opcode)[..6] &&
    forall p: Place :: CountField(content, p) == CountOf(rs, p) % 0x1_0000
  }

  function CountField(content: Bytes, p: Place): nat
    requires |content| >= HEADER
  {
    256 * (content[CountAt(p)] as int) + content[CountAt(p) + 1]
  }

  /** A packet between two records. */
  ghost predicate Settled(content: Bytes, a: Ask, rs: seq<Record>) {
    HeaderSays(content, a, rs) && Holds(Base(content), a, rs)
  }

  ghost predicate Between(w: Writer, a: Ask, rs: seq<Record>) {
    && Settled(w.content, a, rs) && MapOk(Base(w.content), w.labels)
    && w.record == [] && w.qname == Text(a.name) && !w.canonic
  }

  /** A writer with record r open and its fields fs written. */
  ghost predicate InRecord(w: Writer, a: Ask, rs: seq<Record>, r: Record, fs: seq<Field>) {
    && HEADER <= w.marker <= |w.content| && Settled(w.content[..w.marker], a, rs)
    && OwnerAt(Base(w.content), w.marker, r.owner) && OwnerEnd(Base(w.content), w.marker, r.owner) == |w.content|
    && w.stuff == RECORD_HEADER && w.head == HeadOf(r)
    && FieldsAt(ViewOf(w), |w.content| + RECORD_HEADER, fs)
    && FieldsEnd(ViewOf(w), |w.content| + RECORD_HEADER, fs) == Position(w)
    && MapOk(ViewOf(w), w.labels)
    && w.qname == Text(a.name) && !w.canonic
  }

  lemma {:induction false} FieldsSnoc(v: View, pos: nat, fs: seq<Field>, f: Field)
    requires FieldsAt(v, pos, fs) && FieldAt(v, FieldsEnd(v, pos, fs), f)
    ensures FieldsAt(v, pos, fs + [f]) && FieldsEnd(v, pos, fs + [f]) == FieldEnd(v, FieldsEnd(v, pos, fs), f)
    decreases |fs|
  {
    if fs == [] {
      assert (fs + [f])[1..] == [];
    } else {
      assert (fs + [f])[1..] == fs[1..] + [f];
      FieldsSnoc(v, FieldEnd(v, pos, fs[0]), fs[1..], f);
    }
  }

  lemma BaseAppends(content: Bytes, b: Bytes)
    requires |content| >= HEADER
    ensures Base(content + b) == Base(content) + b
  {
    assert (content + b)[HEADER..] == content[HEADER..] + b;
  }

  lemma BaseIgnoresHeader(c: Bytes, d: Bytes)
    requires |c| == |d| >= HEADER && c[HEADER..] == d[HEADER..]
    ensures Base(c) == Base(d)
  {
  }

  lemma HoldsRefines(v: View, w: View, a: Ask, rs: seq<Record>)
    requires Refines(v, w) && Holds(v, a, rs) && |v| == |w|
    ensures Holds(w, a, rs)
  {
    QuestionRefines(v, w, a);
    RecordsRefine(v, w, QuestionEnd(v, a), rs);
  }

  lemma QuestionRefines(v: View, w: View, a: Ask)
    requires Refines(v, w) && QuestionAt(v, a)
    ensures QuestionAt(w, a) && QuestionEnd(w, a) == QuestionEnd(v, a)
  {
    LiteralRefines(v, w, HEADER, a.name);
    BytesRefine(v, w, NameEnd(v, HEADER, a.name), Be16(a.qtype) + Be16(a.qclass));
  }

  // ---- Opening a packet -----------------------------------------------------------------------

  lemma {:induction false} NotCompressedIsLiteral(v: View, n: Name)
    requires |v| >= HEADER && NameAt(v, HEADER, n)
    ensures LiteralAt(v, HEADER, n)
  {
  }

  lemma AppendsAt(v: View, b: Bytes)
    ensures BytesAt(v + b, |v|, b)
  {
  }

  lemma QuestionWritten(a: Ask, e: Emitted, tail: Bytes)
    requires ValidName(a.name) && tail == Be16(a.qtype) + Be16(a.qclass)
    requires e == EmitName([], a.name, false, HEADER)
    ensures e.ok && var v := Holes(HEADER) + e.bytes + tail; Holds(v, a, []) && MapOk(v, e.added)
  {
    var none: LabelMap, base := [], Holes(HEADER);
    EmitNameOk(base, none, none, a.name, false);
    assert none + none == none;
    var named := base + e.bytes;
    NotCompressedIsLiteral(named, a.name);
    AppendRefines(named, tail);
    LiteralRefines(named, named + tail, HEADER, a.name);
    AppendsAt(named, tail);
    MapRefines(named, named + tail, e.added);
  }

  /** The constructor writes the question and nothing else. */
  lemma OpenOk(w: Writer, a: Ask)
    requires ValidName(a.name)
    ensures var o := NewPacket(w, Text(a.name), a.qtype, a.qclass, a.opcode); o.ok && Between(o.w, a, [])
  {
    hide Holds, MapOk, EmitName, LabelOf, HeaderSays;
    var v := w.(content := HeaderOctets(a.opcode), record := [], qname := Text(a.name), labels := [], stuff := 0, canonic := false);
    LabelOfName(v, a.name, false);
    var e := EmitName([], a.name, false, HEADER);
    var tail := Be16(a.qtype) + Be16(a.qclass);
    QuestionWritten(a, e, tail);
    var o := NewPacket(w, Text(a.name), a.qtype, a.qclass, a.opcode);
    var h := HeaderOctets(a.opcode);
    assert o.w.content == h + (e.bytes + tail);
    assert o.w.content[HEADER..] == e.bytes + tail;
    assert Base(o.w.content) == Holes(HEADER) + e.bytes + tail;
    assert [] + e.added == e.added;
    HeaderOfNew(a, o.w.content);
  }

  lemma HeaderOfNew(a: Ask, content: Bytes)
    requires HeaderOctets(a.opcode) <= content
    ensures HeaderSays(content, a, [])
  {
    var h := HeaderOctets(a.opcode);
    assert content[..6] == h[..6];
    forall p: Place
      ensures CountField(content, p) == CountOf([], p) % 0x1_0000
    {
      assert content[CountAt(p)] == h[CountAt(p)] == 0 && content[CountAt(p) + 1] == h[CountAt(p) + 1] == 0;
    }
  }

  // ---- Opening a record -----------------------------------------------------------------------

  /** The owner name at the end of the content, and the label map that goes with it. */
  ghost predicate OwnerWritten(v: View, n: Name, bytes: Bytes, labels: LabelMap) {
    var w := v + bytes;
    OwnerAt(w, |v|, n) && OwnerEnd(w, |v|, n) == |w| && MapOk(w, labels)
  }

  lemma SeeQuestion(v: View, a: Ask, n: Name, labels: LabelMap)
    requires QuestionAt(v, a) && MapOk(v, labels) && ValidName(a.name) && ValidName(n)
    requires Lower(Text(a.name)) == Lower(Text(n))
    ensures OwnerWritten(v, n, [0xc0, 0x0c], labels)
  {
    var p: Bytes := [0xc0, 0x0c];
    var w := v + p;
    TextInjective(a.name, n);
    AppendRefines(v, p);
    LiteralRefines(v, w, HEADER, a.name);
    LiteralIgnoresCase(w, HEADER, a.name, n);
    MapRefines(v, w, labels);
    assert w[|v|] == 0xc0 && w[|v| + 1] == 0x0c;
    assert PointerAt(w, |v|) && Target(w, |v|) == HEADER;
    assert !LiteralAt(w, |v|, n);
  }

  lemma {:induction false} OwnerCompressed(v: View, n: Name, labels: LabelMap)
    requires MapOk(v, labels) && ValidName(n) && |v| >= HEADER
    ensures var e := EmitName(labels, n, true, |v|);
            e.ok && OwnerWritten(v, n, e.bytes, labels + e.added)
  {
    var none: LabelMap := [];
    assert labels + none == labels;
    EmitNameOk(v, labels, none, n, true);
    var e := EmitName(labels, n, true, |v|);
    AppendRefines(v, e.bytes);
    MapRefines(v, v + e.bytes, labels);
    MapConcat(v + e.bytes, labels, e.added);
  }

  function Opened(w: Writer, h: Head, bytes: Bytes, labels: LabelMap): Writer {
    OwnerDone(w.(head := h, stuff := 0, marker := |w.content| % 0x1_0000, content := w.content + bytes, labels := labels))
  }

  lemma OpenedInRecord(w: Writer, a: Ask, rs: seq<Record>, r: Record, bytes: Bytes, labels: LabelMap)
    requires Between(w, a, rs) && |w.content| < 0x1_0000
    requires OwnerWritten(Base(w.content), r.owner, bytes, labels)
    ensures InRecord(Opened(w, HeadOf(r), bytes, labels), a, rs, r, [])
  {
    hide Settled, OwnerAt;
    var o := Opened(w, HeadOf(r), bytes, labels);
    BaseAppends(w.content, bytes);
    assert o.content[..o.marker] == w.content;
    var base := Base(o.content);
    assert ViewOf(o) == base + Holes(RECORD_HEADER);
    AppendRefines(base, Holes(RECORD_HEADER));
    MapRefines(base, ViewOf(o), labels);
  }

  lemma StartOwnerWrites(w: Writer, r: Record)
    requires w.record == [] && !w.canonic && ValidName(r.owner) && Lower(w.qname) != Lower(Text(r.owner))
    requires EmitName(w.labels, r.owner, true, |w.content|).ok
    ensures var e := EmitName(w.labels, r.owner, true, |w.content|);
            StartOwner(w, HeadOf(r)) == Outcome(true, Opened(w, HeadOf(r), e.bytes, w.labels + e.added))
  {
    hide EmitName, LabelOf;
    var v := w.(head := HeadOf(r), stuff := 0, marker := |w.content| % 0x1_0000);
    var e := EmitName(w.labels, r.owner, true, |w.content|);
    LabelOfName(v, r.owner, true);
    assert Position(v) == |w.content|;
    assert [] + e.bytes == e.bytes;
  }

  /** Starting a record after a settled packet writes its owner name. */
  lemma StartOwnerOk(w: Writer, a: Ask, rs: seq<Record>, r: Record)
    requires Between(w, a, rs) && ValidName(a.name) && ValidName(r.owner) && |w.content| < 0x1_0000
    ensures var o := StartOwner(w, HeadOf(r)); o.ok && InRecord(o.w, a, rs, r, [])
  {
    hide MapOk, OwnerWritten, InRecord, EmitName, LabelOf, HeaderSays, QuestionAt, RecordsAt;
    var h := HeadOf(r);
    if Lower(w.qname) == Lower(h.name) {
      SeeQuestion(Base(w.content), a, r.owner, w.labels);
      OpenedInRecord(w, a, rs, r, [0xc0, 0x0c], w.labels);
      assert StartOwner(w, h).w == Opened(w, h, [0xc0, 0x0c], w.labels);
    } else {
      var e := EmitName(w.labels, r.owner, true, |w.content|);
      OwnerCompressed(Base(w.content), r.owner, w.labels);
      OpenedInRecord(w, a, rs, r, e.bytes, w.labels + e.added);
      StartOwnerWrites(w, r);
    }
  }

  // ---- Writing fields -------------------------------------------------------------------------

  /** A field at the end of the view, and the label map that goes with it. */
  ghost predicate FieldWritten(v: View, f: Field, bytes: Bytes, labels: LabelMap) {
    var w := v + bytes;
    FieldAt(w, |v|, f) && FieldEnd(w, |v|, f) == |w| && MapOk(w, labels)
  }

  lemma ViewAppends(w: Writer, bytes: Bytes, labels: LabelMap)
    requires |w.content| >= HEADER
    ensures ViewOf(w.(record := w.record + bytes, labels := labels)) == ViewOf(w) + bytes
  {
  }

  lemma FieldAppended(w: Writer, a: Ask, rs: seq<Record>, r: Record, fs: seq<Field>, f: Field, bytes: Bytes, labels: LabelMap)
    requires InRecord(w, a, rs, r, fs) && FieldWritten(ViewOf(w), f, bytes, labels)
    ensures InRecord(w.(record := w.record + bytes, labels := labels), a, rs, r, fs + [f])
  {
    hide Settled, OwnerAt, MapOk, FieldsAt, FieldsEnd, FieldAt, FieldEnd;
    var v, start := ViewOf(w), |w.content| + RECORD_HEADER;
    ViewAppends(w, bytes, labels);
    hide ViewOf;
    AppendRefines(v, bytes);
    FieldsRefine(v, v + bytes, start, fs);
    FieldsSnoc(v + bytes, start, fs, f);
  }

  lemma {:induction false} NameCompressed(v: View, f: Field, labels: LabelMap, compress: bool)
    requires MapOk(v, labels) && f.FName? && ValidName(f.name) && |v| >= HEADER
    ensures var e := EmitName(labels, f.name, compress, |v|);
            e.ok && FieldWritten(v, f, e.bytes, labels + e.added)
  {
    var none: LabelMap := [];
    assert labels + none == labels;
    EmitNameOk(v, labels, none, f.name, compress);
    var e := EmitName(labels, f.name, compress, |v|);
    AppendRefines(v, e.bytes);
    MapRefines(v, v + e.bytes, labels);
    MapConcat(v + e.bytes, labels, e.added);
  }

  lemma OctetsAppended(v: View, f: Field, labels: LabelMap)
    requires MapOk(v, labels) && !f.FName?
    ensures FieldWritten(v, f, f.Octets(), labels)
  {
    AppendRefines(v, f.Octets());
    AppendsAt(v, f.Octets());
    MapRefines(v, v + f.Octets(), labels);
  }

  lemma MapOfRecord(w: Writer, a: Ask, rs: seq<Record>, r: Record, fs: seq<Field>)
    requires InRecord(w, a, rs, r, fs)
    ensures MapOk(ViewOf(w), w.labels) && |ViewOf(w)| == Position(w) >= HEADER && !w.canonic
  {
  }

  lemma WriteFieldOk(w: Writer, a: Ask, rs: seq<Record>, r: Record, fs: seq<Field>, f: Field)
    requires InRecord(w, a, rs, r, fs) && f.Valid()
    ensures var o := WriteField(w, f); o.ok && InRecord(o.w, a, rs, r, fs + [f])
  {
    hide MapOk, InRecord, EmitName, LabelOf, FieldWritten;
    MapOfRecord(w, a, rs, r, fs);
    var v := ViewOf(w);
    if f.FName? {
      LabelOfName(w, f.name, f.compress);
      NameCompressed(v, f, w.labels, f.compress && !w.canonic);
      var e := EmitName(w.labels, f.name, f.compress && !w.canonic, Position(w));
      FieldAppended(w, a, rs, r, fs, f, e.bytes, w.labels + e.added);
    } else {
      OctetsAppended(v, f, w.labels);
      FieldAppended(w, a, rs, r, fs, f, f.Octets(), w.labels);
    }
  }

  predicate AllValid(fs: seq<Field>) {
    forall i :: 0 <= i < |fs| ==> fs[i].Valid()
  }

  lemma {:induction false} WriteFieldsOk(w: Writer, a: Ask, rs: seq<Record>, r: Record, fs: seq<Field>, more: seq<Field>)
    requires InRecord(w, a, rs, r, fs) && AllValid(more)
    ensures var o := WriteFields(w, more); o.ok && InRecord(o.w, a, rs, r, fs + more)
    decreases |more|
  {
    hide InRecord, WriteField;
    if more == [] {
      assert fs + more == fs;
    } else {
      WriteFieldOk(w, a, rs, r, fs, more[0]);
      var o := WriteField(w, more[0]);
      WriteFieldsOk(o.w, a, rs, r, fs + [more[0]], more[1..]);
      assert fs + [more[0]] + more[1..] == fs + more;
    }
  }

  // ---- Commit and rollback --------------------------------------------------------------------

  lemma BumpKeepsRest(content: Bytes, p: Place)
    requires |content| >= HEADER
    ensures BumpCount(content, p)[HEADER..] == content[HEADER..]
    ensures BumpCount(content, p)[..6] == content[..6]
  {
  }

  lemma BumpAddsOne(content: Bytes, p: Place, q: Place)
    requires |content| >= HEADER
    ensures CountField(BumpCount(content, p), q) == (CountField(content, q) + (if p == q then 1 else 0)) % 0x1_0000
  {
  }

  lemma {:induction false} CountOfSnoc(rs: seq<Record>, r: Record, p: Place)
    ensures CountOf(rs + [r], p) == CountOf(rs, p) + (if r.place == p then 1 else 0)
  {
    assert (rs + [r])[..|rs|] == rs;
  }

  lemma PrefixCounts(c: Bytes, m: nat, p: Place)
    requires HEADER <= m <= |c|
    ensures CountField(c[..m], p) == CountField(c, p)
  {
  }

  lemma HeaderBumped(c: Bytes, m: nat, a: Ask, rs: seq<Record>, r: Record, b: Bytes)
    requires HEADER <= m <= |c| && HeaderSays(c[..m], a, rs) && b == BumpCount(c, r.place)
    ensures HeaderSays(b, a, rs + [r])
  {
    hide BumpCount, CountOf, CountField;
    BumpKeepsRest(c, r.place);
    assert c[..6] == c[..m][..6];
    forall p: Place
      ensures CountField(b, p) == CountOf(rs + [r], p) % 0x1_0000
    {
      BumpAddsOne(c, r.place, p);
      CountOfSnoc(rs, r, p);
      PrefixCounts(c, m, p);
    }
  }

  lemma PrefixRefines(content: Bytes, m: nat)
    requires HEADER <= m <= |content|
    ensures Refines(Base(content[..m]), Base(content))
  {
  }

  /** The committed content fills the holes of the view, and nothing else changes. */
  lemma CommitFills(w: Writer, header: Bytes, base: View)
    requires |w.content| >= HEADER && w.stuff == RECORD_HEADER && |header| == RECORD_HEADER
    requires base == Base(w.content) + header + w.record
    ensures Refines(ViewOf(w), base) && Refines(Base(w.content), base) && |base| == |ViewOf(w)|
    ensures BytesAt(base, |w.content|, header)
  {
    assert base[|w.content|..|w.content| + RECORD_HEADER] == header;
  }

  lemma {:induction false} BodyFilled(v: View, base: View, e: nat, start: nat, r: Record, clen: nat)
    requires Refines(v, base) && |v| == |base| == start + clen && clen < 0x1_0000 && start == e + RECORD_HEADER
    requires FieldsAt(v, start, r.fields) && FieldsEnd(v, start, r.fields) == |v|
    requires BytesAt(base, e, RecordHeader(HeadOf(r), clen))
    ensures BodyAt(base, e, r) && FieldsEnd(base, start, r.fields) == |base|
  {
    hide RecordHeader, BytesAt, FieldsAt, FieldsEnd, HeadOf;
    FieldsRefine(v, base, start, r.fields);
  }

  lemma OpenRecordFilled(w: Writer, a: Ask, rs: seq<Record>, r: Record, base: View)
    requires InRecord(w, a, rs, r, r.fields) && |w.record| < 0x1_0000
    requires base == Base(w.content) + RecordHeader(w.head, |w.record|) + w.record
    ensures RecordAt(base, w.marker, r) && RecordEnd(base, w.marker, r) == |base| && MapOk(base, w.labels)
  {
    hide Settled, OwnerAt, OwnerEnd, FieldsAt, FieldsEnd, MapOk, RecordHeader, BodyAt;
    CommitFills(w, RecordHeader(w.head, |w.record|), base);
    MapRefines(ViewOf(w), base, w.labels);
    BodyFilled(ViewOf(w), base, |w.content|, |w.content| + RECORD_HEADER, r, |w.record|);
    OwnerRefines(Base(w.content), base, w.marker, r.owner);
  }

  lemma MarkedHolds(w: Writer, a: Ask, rs: seq<Record>, r: Record, fs: seq<Field>)
    requires InRecord(w, a, rs, r, fs)
    ensures HEADER <= w.marker <= |w.content| && Holds(Base(w.content[..w.marker]), a, rs)
  {
  }

  lemma RecordCommitted(w: Writer, a: Ask, rs: seq<Record>, r: Record, base: View)
    requires InRecord(w, a, rs, r, r.fields) && |w.record| < 0x1_0000
    requires base == Base(w.content) + RecordHeader(w.head, |w.record|) + w.record
    ensures Holds(base, a, rs + [r]) && MapOk(base, w.labels)
  {
    hide InRecord, RecordAt, QuestionAt, RecordsAt, MapOk, RecordHeader;
    OpenRecordFilled(w, a, rs, r, base);
    MarkedHolds(w, a, rs, r, r.fields);
    var before := Base(w.content[..w.marker]);
    PrefixRefines(w.content, w.marker);
    assert Refines(before, base);
    QuestionRefines(before, base, a);
    RecordsRefine(before, base, QuestionEnd(before, a), rs);
    RecordsSnoc(base, QuestionEnd(base, a), rs, r);
  }

  /** Commit turns the open record into the next record of the packet. */
  lemma CommitOk(w: Writer, a: Ask, rs: seq<Record>, r: Record)
    requires InRecord(w, a, rs, r, r.fields) && |w.record| < 0x1_0000
    ensures var o := Commit(w); o.ok && Between(o.w, a, rs + [r])
  {
    hide Holds, MapOk, OwnerAt, FieldsAt, HeaderSays, RecordHeader, BumpCount;
    var header := RecordHeader(w.head, |w.record|);
    var c := w.content + header + w.record;
    var b := BumpCount(c, r.place);
    BumpKeepsRest(c, r.place);
    BaseIgnoresHeader(b, c);
    BaseAppends(w.content, header);
    BaseAppends(w.content + header, w.record);
    RecordCommitted(w, a, rs, r, Base(c));
    assert c[..w.marker] == w.content[..w.marker];
    HeaderBumped(c, w.marker, a, rs, r, b);
  }

  /** Rollback leaves exactly the packet that was there before the open record. */
  lemma RollbackOk(w: Writer, a: Ask, rs: seq<Record>, r: Record, fs: seq<Field>)
    requires InRecord(w, a, rs, r, fs)
    ensures Settled(Rollback(w).content, a, rs)
  {
  }
}
