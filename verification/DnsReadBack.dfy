/** The parser reads back exactly what the wire format describes. */
module DnsReadBack {
  import opened Octets
  import opened DnsNames
  import opened DnsWire
  import opened DnsWriter
  import opened DnsReader
  import opened DnsRecords
  import opened DnsParser
  import opened Wrappers

  /** The most labels for which the reader's hop limit can never bite. */
  const MAX_LABELS := MAX_RECURSION

  predicate ShortName(n: Name) {
    ValidName(n) && |n| <= MAX_LABELS
  }

  predicate ReadableField(f: Field) {
    f.Valid() && (f.FName? ==> ShortName(f.name))
  }

  /** A record of a type that is made of fields, or of a type the program knows nothing about. */
  predicate Readable(r: Record) {
    && ShortName(r.owner) && !HasOwnParser(r.rclass, r.rtype)
    && var ks := Layout(r.rclass, r.rtype);
    && |r.fields| == |ks|
    && (forall i :: 0 <= i < |ks| ==> r.fields[i].Kind() == ks[i] && ReadableField(r.fields[i]))
  }

  predicate ValueOf(v: Value, f: Field) {
    match f
    case F8(b) => v == Num(b)
    case F16(w) => v == Num(w)
    case F32(d) => v == Num(d)
    case F48(q) => q >= 0 && v == Num(q)
    case FAddress(ip6) => v == Data(ip6)
    case FName(n, _) => v.NameText? && Lower(v.text) == Lower(Text(n))
    case FRest(b) => v == Data(b)
  }

  predicate ValuesOf(vs: seq<Value>, fs: seq<Field>) {
    |vs| == |fs| && forall i :: 0 <= i < |vs| ==> ValueOf(vs[i], fs[i])
  }

  predicate AnswerOf(p: ParsedRecord, r: Record) {
    && Lower(p.name) == Lower(Text(r.owner))
    && p.rtype == r.rtype && p.rclass == r.rclass && p.ttl == r.ttl && p.place == r.place
    && ValuesOf(p.values, r.fields)
  }

  predicate AnswersOf(ps: seq<ParsedRecord>, rs: seq<Record>) {
    |ps| == |rs| && forall i :: 0 <= i < |ps| ==> AnswerOf(ps[i], rs[i])
  }

  // ---- Integers -------------------------------------------------------------------------------

  lemma {:induction false} FromBeSnoc(b: Bytes, c: Byte)
    ensures FromBe(b + [c]) == FromBe(b) * 256 + c
  {
    assert (b + [c])[..|b|] == b;
  }

  lemma FromBeOfBe16(w: Word16)
    ensures FromBe(Be16(w)) == w
  {
    var h, l: Byte := (w / 256) % 256, w % 256;
    FromBeSnoc([], h);
    FromBeSnoc([h], l);
    assert [] + [h] == [h] && Be16(w) == [h] + [l];
  }

  lemma {:induction false} FromBe4(a: Byte, b: Byte, c: Byte, d: Byte, p: Bytes)
    ensures FromBe(p + [a, b, c, d]) == FromBe(p) * 0x1_0000_0000 + FromBe32([a, b, c, d])
  {
    FromBeSnoc(p, a);
    FromBeSnoc(p + [a], b);
    FromBeSnoc(p + [a] + [b], c);
    FromBeSnoc(p + [a] + [b] + [c], d);
    hide FromBe;
    assert p + [a, b, c, d] == p + [a] + [b] + [c] + [d];
  }

  lemma {:induction false} FromBeOfBe32(d: Word32, p: Bytes)
    ensures FromBe(p + Be32(d)) == FromBe(p) * 0x1_0000_0000 + d
  {
    hide FromBe, Be32, FromBe32;
    var b := Be32(d);
    FromBe4(b[0], b[1], b[2], b[3], p);
    Be32RoundTrip(d);
    assert b == [b[0], b[1], b[2], b[3]];
  }

  lemma FieldIntReads(f: Field)
    requires f.Valid() && f.IsInteger()
    ensures |f.Octets()| == KindSize(f.Kind())
    ensures ValueOf(Num(FromBe(f.Octets())), f)
  {
    match f {
      case F8(b) => FromBeSnoc([], b); assert [] + [b] == [b];
      case F16(w) => FromBeOfBe16(w);
      case F32(d) => FromBeOfBe32(d, []); assert [] + Be32(d) == Be32(d);
      case F48(q) =>
        FromBeOf48(q);
    }
  }

  lemma FromBeOf48(q: nat)
    requires q < 0x1_0000_0000_0000
    ensures FromBe(Be16(q / 0x1_0000_0000) + Be32(q % 0x1_0000_0000)) == q
  {
    var high: Word16, low: Word32 := q / 0x1_0000_0000, q % 0x1_0000_0000;
    FromBeOfBe16(high);
    FromBeOfBe32(low, Be16(high));
  }

  // ---- Fields ---------------------------------------------------------------------------------

  lemma BytesRead(packet: Bytes, pos: nat, at: nat, b: Bytes)
    requires BytesAt(packet, pos, b) && pos == at + HEADER
    ensures at + |b| <= |packet[HEADER..]| && packet[HEADER..][at..at + |b|] == b
  {
  }

  lemma {:induction false} NameReads(packet: Bytes, pos: nat, at: nat, n: Name)
    requires NameAt(packet, pos, n) && ShortName(n) && pos == at + HEADER && |packet| < 0x1_0000
    ensures |packet| >= HEADER
    ensures var r := ReadName(packet[HEADER..], at);
            r.Got? && Lower(r.value) == Lower(Text(n)) && r.next + HEADER == NameEnd(packet, pos, n)
  {
    hide NameAt, Hops, NameEnd, ReadLabels, ValidName, Finish, Text;
    ReadsName(packet, pos, n, [], 0, at);
    FinishIsText(n);
  }

  lemma {:induction false} FinishIsText(n: Name)
    ensures Finish([], n) == Text(n)
  {
  }

  ghost predicate ReadsAs(r: Read<Value>, f: Field, end: nat) {
    r.Got? && ValueOf(r.value, f) && r.next + HEADER == end
  }

  lemma FieldReads(packet: Bytes, pos: nat, at: nat, f: Field, start: nat, clen: nat)
    requires FieldAt(packet, pos, f) && ReadableField(f) && pos == at + HEADER && |packet| < 0x1_0000
    requires |packet| >= HEADER
    requires start <= at
    requires f.FRest? ==> at + |f.blob| == start + clen && (clen == 0 || pos < |packet|)
    ensures ReadsAs(ReadField(packet[HEADER..], at, start, clen, f.Kind()), f, FieldEnd(packet, pos, f))
  {
    if f.FName? {
      NameReads(packet, pos, at, f.name);
    } else if f.FAddress? {
      BytesRead(packet, pos, at, f.ip6);
      assert ReadAddress(packet[HEADER..], at) == Got(f.ip6, at + 16);
    } else if f.FRest? {
      BytesRead(packet, pos, at, f.blob);
      assert ReadRest(packet[HEADER..], at, start, clen) == Got(f.blob, at + |f.blob|);
    } else {
      IntReads(packet, pos, at, f, start, clen);
    }
  }

  lemma IntReads(packet: Bytes, pos: nat, at: nat, f: Field, start: nat, clen: nat)
    requires FieldAt(packet, pos, f) && f.Valid() && f.IsInteger()
    requires pos == at + HEADER && |packet| >= HEADER
    ensures ReadsAs(ReadField(packet[HEADER..], at, start, clen, f.Kind()), f, FieldEnd(packet, pos, f))
  {
    BytesRead(packet, pos, at, f.Octets());
    FieldIntReads(f);
    assert ReadInt(packet[HEADER..], at, KindSize(f.Kind())) == Got(FromBe(f.Octets()), at + |f.Octets()|);
  }

  predicate RestLast(fs: seq<Field>) {
    forall i :: 0 <= i < |fs| && fs[i].FRest? ==> i == |fs| - 1
  }

  /** The fields end in an empty blob. */
  predicate EmptyRest(fs: seq<Field>) {
    fs != [] && fs[|fs| - 1].FRest? && fs[|fs| - 1].blob == []
  }

  function KindsOf(fs: seq<Field>): seq<Kind> {
    if fs == [] then [] else [fs[0].Kind()] + KindsOf(fs[1..])
  }

  /** The fields of a record of length clen at start, of which those before at have been read. */
  ghost predicate FieldsLeft(packet: Bytes, pos: nat, at: nat, fs: seq<Field>, start: nat, clen: nat) {
    && FieldsAt(packet, pos, fs) && pos == at + HEADER && HEADER <= |packet| < 0x1_0000
    && FieldsEnd(packet, pos, fs) == start + clen + HEADER && start <= at
    && (forall i :: 0 <= i < |fs| ==> ReadableField(fs[i])) && RestLast(fs)
  }

  lemma {:induction false} FirstFieldReads(packet: Bytes, pos: nat, at: nat, fs: seq<Field>, start: nat, clen: nat)
    requires FieldsLeft(packet, pos, at, fs, start, clen) && fs != []
    requires fs[0].FRest? ==> clen == 0 || pos < |packet|
    ensures var mid := FieldEnd(packet, pos, fs[0]);
            var one := ReadField(packet[HEADER..], at, start, clen, fs[0].Kind());
            && ReadsAs(one, fs[0], mid)
            && FieldsLeft(packet, mid, one.next, fs[1..], start, clen)
            && FieldsEnd(packet, mid, fs[1..]) == FieldsEnd(packet, pos, fs)
            && (EmptyRest(fs) && fs[1..] != [] ==> EmptyRest(fs[1..]))
  {
    var f, tail := fs[0], fs[1..];
    if f.FRest? { assert tail == [] && FieldsEnd(packet, pos, fs) == pos + |f.blob|; }
    FieldReads(packet, pos, at, f, start, clen);
    forall i | 0 <= i < |tail| && tail[i].FRest?
      ensures i == |tail| - 1
    {
      assert tail[i] == fs[i + 1];
    }
  }

  /** Fields read back, unless they end in an empty blob with nothing behind it. */
  lemma {:induction false} FieldsRead(packet: Bytes, pos: nat, at: nat, fs: seq<Field>, start: nat, clen: nat)
    requires FieldsLeft(packet, pos, at, fs, start, clen)
    requires EmptyRest(fs) && clen > 0 ==> FieldsEnd(packet, pos, fs) < |packet|
    ensures var r := ReadFields(packet[HEADER..], at, start, clen, KindsOf(fs));
            r.Got? && ValuesOf(r.value, fs) && r.next == start + clen
    decreases |fs|
  {
    if fs != [] {
      if fs[0].FRest? { assert fs[1..] == [] && FieldsEnd(packet, pos, fs) == pos + |fs[0].blob|; }
      FirstFieldReads(packet, pos, at, fs, start, clen);
      hide FieldsLeft, FieldsAt, FieldsEnd, ReadField, FieldAt, FieldEnd;
      var content, mid := packet[HEADER..], FieldEnd(packet, pos, fs[0]);
      var one := ReadField(content, at, start, clen, fs[0].Kind());
      FieldsRead(packet, mid, one.next, fs[1..], start, clen);
      var rest := ReadFields(content, one.next, start, clen, KindsOf(fs[1..]));
      FieldsReadCons(content, at, start, clen, fs, one, rest);
    }
  }

  /** An empty blob behind other fields and at the end of the packet is not read: the reader looks at its
      first octet before it looks at its length. */
  lemma {:induction false} EmptyRestFails(packet: Bytes, pos: nat, at: nat, fs: seq<Field>, start: nat, clen: nat)
    requires FieldsLeft(packet, pos, at, fs, start, clen)
    requires EmptyRest(fs) && clen > 0 && FieldsEnd(packet, pos, fs) == |packet|
    ensures ReadFields(packet[HEADER..], at, start, clen, KindsOf(fs)) == Failed(OUT_OF_PACKET)
    decreases |fs|
  {
    var content := packet[HEADER..];
    var ks := KindsOf(fs);
    assert ks[0] == fs[0].Kind() && ks[1..] == KindsOf(fs[1..]);
    if fs[0].FRest? {
      assert fs[1..] == [] && FieldsEnd(packet, pos, fs) == pos + |fs[0].blob|;
      assert ReadRest(content, at, start, clen) == Failed(OUT_OF_PACKET);
    } else {
      FirstFieldReads(packet, pos, at, fs, start, clen);
      assert |fs| > 1;
      hide FieldsLeft, FieldsAt, FieldsEnd, ReadField, FieldAt, FieldEnd;
      var one := ReadField(content, at, start, clen, fs[0].Kind());
      EmptyRestFails(packet, FieldEnd(packet, pos, fs[0]), one.next, fs[1..], start, clen);
    }
  }

  lemma {:induction false} FieldsReadCons(content: Bytes, at: nat, start: nat, clen: nat, fs: seq<Field>, one: Read<Value>, rest: Read<seq<Value>>)
    requires fs != [] && one == ReadField(content, at, start, clen, fs[0].Kind()) && one.Got? && ValueOf(one.value, fs[0])
    requires rest == ReadFields(content, one.next, start, clen, KindsOf(fs[1..])) && rest.Got? && ValuesOf(rest.value, fs[1..])
    ensures var r := ReadFields(content, at, start, clen, KindsOf(fs));
            r.Got? && ValuesOf(r.value, fs) && r.next == rest.next
  {
    var ks := KindsOf(fs);
    assert ks[0] == fs[0].Kind() && ks[1..] == KindsOf(fs[1..]);
    var vs := [one.value] + rest.value;
    forall i | 0 <= i < |vs|
      ensures ValueOf(vs[i], fs[i])
    {
      if i > 0 { assert ValueOf(rest.value[i - 1], fs[1..][i - 1]); }
    }
  }

  // ---- Records --------------------------------------------------------------------------------

  lemma OwnerReads(packet: Bytes, pos: nat, at: nat, n: Name)
    requires OwnerAt(packet, pos, n) && ShortName(n) && pos == at + HEADER && |packet| < 0x1_0000
    ensures |packet| >= HEADER
    ensures var r := ReadName(packet[HEADER..], at);
            r.Got? && Lower(r.value) == Lower(Text(n)) && r.next + HEADER == OwnerEnd(packet, pos, n)
  {
    if NameAt(packet, pos, n) {
      NameReads(packet, pos, at, n);
    } else {
      var content := packet[HEADER..];
      assert content[at] == packet[pos] && content[at + 1] == packet[pos + 1] && content[0] == packet[HEADER];
      StepPointer(content, at, 0, [], 0);
      assert ReadLabels(content, 0, [], 1) == GotLabel([DOT], 1);
    }
  }

  lemma HeaderReads(h: Head, clen: Word16)
    ensures var b := RecordHeader(h, clen);
            && FromBe16(b[0..2]) == h.rtype && FromBe16(b[2..4]) == h.rclass
            && FromBe32(b[4..8]) == h.ttl && FromBe16(b[8..10]) == clen
  {
    hide Be16, Be32, FromBe16, FromBe32;
    var b := RecordHeader(h, clen);
    assert b[0..2] == Be16(h.rtype) && b[2..4] == Be16(h.rclass) && b[4..8] == Be32(h.ttl) && b[8..10] == Be16(clen);
    Be16RoundTrip(h.rtype);
    Be16RoundTrip(h.rclass);
    Be16RoundTrip(clen);
    Be32RoundTrip(h.ttl);
  }

  lemma KindsOfLayout(r: Record)
    requires Readable(r)
    ensures KindsOf(r.fields) == Layout(r.rclass, r.rtype)
  {
    KindsAre(r.fields, Layout(r.rclass, r.rtype));
  }

  lemma {:induction false} KindsAre(fs: seq<Field>, ks: seq<Kind>)
    requires |fs| == |ks| && forall i :: 0 <= i < |ks| ==> fs[i].Kind() == ks[i]
    ensures KindsOf(fs) == ks
  {
    if fs != [] {
      KindsAre(fs[1..], ks[1..]);
      assert ks == [ks[0]] + ks[1..];
    }
  }

  /** In every layout the rest of the record comes last. */
  lemma RestIsLast(r: Record)
    requires Readable(r)
    ensures RestLast(r.fields)
  {
    var ks := Layout(r.rclass, r.rtype);
    assert forall i :: 0 <= i < |ks| - 1 ==> ks[i] != KRest;
    forall i | 0 <= i < |r.fields| && r.fields[i].FRest?
      ensures i == |r.fields| - 1
    {
      assert r.fields[i].Kind() == ks[i];
    }
  }

  /** Several fields of which the last one is an empty blob. */
  predicate EndsEmpty(r: Record) {
    |r.fields| > 1 && EmptyRest(r.fields)
  }

  lemma ReadableKinds(r: Record)
    requires Readable(r)
    ensures var ks := Layout(r.rclass, r.rtype);
            |r.fields| == |ks| && forall i :: 0 <= i < |ks| ==> r.fields[i].Kind() == ks[i] && ReadableField(r.fields[i])
  {
  }

  lemma LayoutsStart(rclass: Word16, rtype: Word16)
    ensures var ks := Layout(rclass, rtype); |ks| > 0 && (|ks| > 1 ==> ks[0] != KRest)
    ensures rclass == 1 && rtype == 1 ==> Layout(rclass, rtype) == [K32]
    ensures rclass == 1 && rtype == 28 ==> Layout(rclass, rtype) == [KAddress]
  {
  }

  lemma {:induction false} TakesRoom(v: View, pos: nat, f: Field)
    requires FieldAt(v, pos, f) && f.Valid() && !f.FRest?
    ensures FieldEnd(v, pos, f) > pos
  {
  }

  lemma SizeOfKind(f: Field)
    requires f.Valid()
    ensures f.Kind() == K32 ==> !f.FName? && |f.Octets()| == 4
    ensures f.Kind() == KAddress ==> !f.FName? && |f.Octets()| == 16
  {
  }

  /** With other fields in front the record has a length, without any it has none. */
  lemma {:induction false} EmptyRestLength(v: View, pos: nat, r: Record)
    requires FieldsAt(v, pos, r.fields) && Readable(r) && EmptyRest(r.fields)
    ensures EndsEmpty(r) <==> FieldsEnd(v, pos, r.fields) > pos
  {
    var fs := r.fields;
    ReadableKinds(r);
    LayoutsStart(r.rclass, r.rtype);
    hide Readable, Layout;
    if |fs| == 1 {
      SoleField(v, pos, fs);
    } else {
      hide EmptyRest;
      assert !fs[0].FRest?;
      TakesRoom(v, pos, fs[0]);
    }
  }

  lemma {:induction false} SoleField(v: View, pos: nat, fs: seq<Field>)
    requires FieldsAt(v, pos, fs) && |fs| == 1 && !fs[0].FName?
    ensures FieldsEnd(v, pos, fs) == pos + |fs[0].Octets()|
  {
    assert fs[1..] == [];
  }

  lemma {:induction false} LengthIsOk(r: Record, v: View, pos: nat)
    requires Readable(r) && FieldsAt(v, pos, r.fields)
    ensures LengthOk(r.rclass, r.rtype, FieldsEnd(v, pos, r.fields) - pos)
  {
    ReadableKinds(r);
    LayoutsStart(r.rclass, r.rtype);
    hide Readable, Layout, FieldsAt, FieldsEnd;
    if r.rclass == 1 && (r.rtype == 1 || r.rtype == 28) {
      SizeOfKind(r.fields[0]);
      SoleField(v, pos, r.fields);
    }
  }

  ghost predicate RecordReadsAs(p: Read<ParsedRecord>, r: Record, end: nat) {
    p.Got? && AnswerOf(p.value, r) && p.next + HEADER == end
  }

  /** What the reader finds behind an owner name: the fixed part of the record and its fields. */
  lemma {:induction false} BodyIsRead(packet: Bytes, e: nat, at: nat, name: Bytes, r: Record, start: nat, clen: Word16)
    requires BodyAt(packet, e, r) && Readable(r) && e == at + HEADER && HEADER <= |packet| < 0x1_0000
    requires start == at + RECORD_HEADER && clen == BodyLength(packet, e, r)
    ensures FieldsLeft(packet, e + RECORD_HEADER, start, r.fields, start, clen)
    ensures ReadBody(packet[HEADER..], at, name, r.place)
         == match ReadFields(packet[HEADER..], start, start, clen, KindsOf(r.fields))
            case Failed(f) => Failed(f)
            case Got(vs, next) => Got(ParsedRecord(name, r.rtype, r.rclass, r.ttl, clen, r.place, vs, next), next)
  {
    var content := packet[HEADER..];
    var b := RecordHeader(HeadOf(r), clen);
    BytesRead(packet, e, at, b);
    HeaderReads(HeadOf(r), clen);
    HeaderSlices(content, at, start, b);
    LengthIsOk(r, packet, e + RECORD_HEADER);
    RestIsLast(r);
    KindsOfLayout(r);
    assert forall i :: 0 <= i < |r.fields| ==> ReadableField(r.fields[i]);
    hide ReadFields, RecordHeader, Layout, LengthOk, FieldsAt, FieldsEnd, ReadableField, RestLast, KindsOf;
  }

  lemma {:induction false} BodyReads(packet: Bytes, e: nat, at: nat, name: Bytes, r: Record)
    requires BodyAt(packet, e, r) && Readable(r) && e == at + HEADER && HEADER <= |packet| < 0x1_0000
    requires Lower(name) == Lower(Text(r.owner))
    ensures var end := FieldsEnd(packet, e + RECORD_HEADER, r.fields);
            var b := ReadBody(packet[HEADER..], at, name, r.place);
            if EndsEmpty(r) && end == |packet| then b == Failed(OUT_OF_PACKET) else RecordReadsAs(b, r, end)
  {
    var clen: Word16 := BodyLength(packet, e, r);
    var start := at + RECORD_HEADER;
    BodyIsRead(packet, e, at, name, r, start, clen);
    if EmptyRest(r.fields) { EmptyRestLength(packet, e + RECORD_HEADER, r); }
    hide Readable, FieldsLeft, ReadBody, ReadFields, KindsOf, FieldsAt;
    if EndsEmpty(r) && FieldsEnd(packet, e + RECORD_HEADER, r.fields) == |packet| {
      EmptyRestFails(packet, e + RECORD_HEADER, start, r.fields, start, clen);
    } else {
      FieldsRead(packet, e + RECORD_HEADER, start, r.fields, start, clen);
    }
  }

  lemma HeaderSlices(content: Bytes, at: nat, start: nat, b: Bytes)
    requires |b| == RECORD_HEADER && start == at + RECORD_HEADER <= |content| && content[at..start] == b
    ensures content[at..at + 2] == b[0..2] && content[at + 2..at + 4] == b[2..4]
    ensures content[at + 4..at + 8] == b[4..8] && content[at + 8..start] == b[8..10]
  {
    SubSlice(content, at, start, 0, 2);
    SubSlice(content, at, start, 2, 4);
    SubSlice(content, at, start, 4, 8);
    SubSlice(content, at, start, 8, 10);
  }

  lemma SubSlice(s: Bytes, a: nat, b: nat, i: nat, j: nat)
    requires a <= b <= |s| && i <= j <= b - a
    ensures s[a..b][i..j] == s[a + i..a + j]
  {
    var t := s[a..b];
    forall k | 0 <= k < j - i
      ensures t[i..j][k] == s[a + i..a + j][k]
    {
      assert t[i + k] == s[a + (i + k)];
    }
  }

  lemma ReadableOwner(r: Record)
    requires Readable(r)
    ensures ShortName(r.owner)
  {
  }

  /** A written record is read back, unless it ends in an empty blob at the end of the packet. */
  lemma {:induction false} RecordReads(packet: Bytes, pos: nat, at: nat, r: Record)
    requires RecordAt(packet, pos, r) && Readable(r) && pos == at + HEADER && HEADER <= |packet| < 0x1_0000
    ensures var one, end := ReadRecord(packet[HEADER..], at, r.place), RecordEnd(packet, pos, r);
            if EndsEmpty(r) && end == |packet| then one == Failed(OUT_OF_PACKET) else RecordReadsAs(one, r, end)
  {
    hide Readable, AnswerOf, ReadBody, ReadName, OwnerAt, EndsEmpty;
    var content, e := packet[HEADER..], OwnerEnd(packet, pos, r.owner);
    ReadableOwner(r);
    OwnerReads(packet, pos, at, r.owner);
    var name := ReadName(content, at);
    BodyReads(packet, e, name.next, name.value, r);
    assert ReadRecord(content, at, r.place) == ReadBody(content, name.next, name.value, r.place);
    assert RecordEnd(packet, pos, r) == FieldsEnd(packet, e + RECORD_HEADER, r.fields);
  }

  /** The counts put record n + i in the section of rs[i], and there are no records behind the last. */
  ghost predicate PlacesFit(c: Counts, n: nat, rs: seq<Record>) {
    n + |rs| == Total(c) && forall i :: 0 <= i < |rs| ==> rs[i].place == PlaceOf(c, n + i)
  }

  predicate AllReadable(rs: seq<Record>) {
    rs == [] || (Readable(rs[0]) && AllReadable(rs[1..]))
  }

  lemma PlacesTail(c: Counts, n: nat, next: nat, rs: seq<Record>)
    requires PlacesFit(c, n, rs) && rs != [] && next == n + 1
    ensures PlacesFit(c, next, rs[1..]) && rs[0].place == PlaceOf(c, n) && n < Total(c)
  {
    forall i | 0 <= i < |rs[1..]|
      ensures rs[1..][i].place == PlaceOf(c, next + i)
    {
      assert rs[i + 1].place == PlaceOf(c, n + (i + 1));
    }
    assert rs[0].place == PlaceOf(c, n + 0);
  }

  predicate LastEndsEmpty(rs: seq<Record>) {
    rs != [] && EndsEmpty(rs[|rs| - 1])
  }

  /** A record with another one behind it ends before the packet does. */
  lemma {:induction false} NotAtTheEnd(packet: Bytes, pos: nat, rs: seq<Record>)
    requires RecordsAt(packet, pos, rs) && |rs| > 1
    ensures RecordEnd(packet, pos, rs[0]) < |packet|
  {
    assert RecordsEnd(packet, RecordEnd(packet, pos, rs[0]), rs[1..]) <= |packet|;
  }

  lemma {:induction false} FirstRecordReads(packet: Bytes, pos: nat, at: nat, rs: seq<Record>)
    requires RecordsAt(packet, pos, rs) && rs != [] && Readable(rs[0]) && pos == at + HEADER && HEADER <= |packet| < 0x1_0000
    requires |rs| > 1 || !(LastEndsEmpty(rs) && RecordsEnd(packet, pos, rs) == |packet|)
    ensures RecordReadsAs(ReadRecord(packet[HEADER..], at, rs[0].place), rs[0], RecordEnd(packet, pos, rs[0]))
  {
    RecordReads(packet, pos, at, rs[0]);
    hide Readable, RecordAt, AnswerOf, ReadRecord, RecordEnd, EndsEmpty;
    if |rs| > 1 {
      NotAtTheEnd(packet, pos, rs);
    } else {
      assert rs[1..] == [] && rs[|rs| - 1] == rs[0];
    }
  }

  /** Records are read back in order, unless the last one ends in an empty blob with nothing behind it. */
  lemma {:induction false} RecordsRead(packet: Bytes, pos: nat, at: nat, rs: seq<Record>, c: Counts, n: nat)
    requires RecordsAt(packet, pos, rs) && pos == at + HEADER && HEADER <= |packet| < 0x1_0000
    requires AllReadable(rs) && PlacesFit(c, n, rs)
    requires LastEndsEmpty(rs) ==> RecordsEnd(packet, pos, rs) < |packet|
    ensures var a := ReadRecords(packet[HEADER..], at, c, n);
            a.failure == None && AnswersOf(a.records, rs)
    decreases |rs|
  {
    hide Readable, RecordAt, AnswerOf, ReadRecord, RecordEnd, EndsEmpty;
    if rs != [] {
      var content, r, tail := packet[HEADER..], rs[0], rs[1..];
      FirstRecordReads(packet, pos, at, rs);
      var one := ReadRecord(content, at, r.place);
      PlacesTail(c, n, n + 1, rs);
      if tail != [] { assert tail[|tail| - 1] == rs[|rs| - 1]; }
      RecordsRead(packet, RecordEnd(packet, pos, r), one.next, tail, c, n + 1);
      RecordsReadCons(content, at, c, n, n + 1, rs, one.next);
    }
  }

  /** Otherwise the parser runs off the packet. */
  lemma {:induction false} LastRecordFails(packet: Bytes, pos: nat, at: nat, rs: seq<Record>, c: Counts, n: nat)
    requires RecordsAt(packet, pos, rs) && pos == at + HEADER && HEADER <= |packet| < 0x1_0000
    requires AllReadable(rs) && PlacesFit(c, n, rs)
    requires LastEndsEmpty(rs) && RecordsEnd(packet, pos, rs) == |packet|
    ensures ReadRecords(packet[HEADER..], at, c, n).failure == Some(OUT_OF_PACKET)
    decreases |rs|
  {
    hide Readable, RecordAt, AnswerOf, ReadRecord, RecordEnd, EndsEmpty;
    var content, r, tail := packet[HEADER..], rs[0], rs[1..];
    PlacesTail(c, n, n + 1, rs);
    if tail == [] {
      assert rs[|rs| - 1] == r;
      RecordReads(packet, pos, at, r);
    } else {
      assert tail[|tail| - 1] == rs[|rs| - 1];
      FirstRecordReads(packet, pos, at, rs);
      LastRecordFails(packet, RecordEnd(packet, pos, r), ReadRecord(content, at, r.place).next, tail, c, n + 1);
    }
  }

  lemma {:induction false} RecordsReadCons(content: Bytes, at: nat, c: Counts, n: nat, next: nat, rs: seq<Record>, mid: nat)
    requires n < Total(c) && next == n + 1 && rs != [] && rs[0].place == PlaceOf(c, n)
    requires RecordReadsAs(ReadRecord(content, at, rs[0].place), rs[0], mid + HEADER)
    requires var b := ReadRecords(content, mid, c, next); b.failure == None && AnswersOf(b.records, rs[1..])
    ensures var a := ReadRecords(content, at, c, n); a.failure == None && AnswersOf(a.records, rs)
  {
    var one := ReadRecord(content, at, rs[0].place);
    var b := ReadRecords(content, mid, c, next);
    assert one == Got(one.value, mid);
    assert ReadRecords(content, at, c, n) == Answers([one.value] + b.records, b.failure);
    AnswersCons(one.value, b.records, rs);
  }

  lemma AnswersCons(p: ParsedRecord, ps: seq<ParsedRecord>, rs: seq<Record>)
    requires rs != [] && AnswerOf(p, rs[0]) && AnswersOf(ps, rs[1..])
    ensures AnswersOf([p] + ps, rs)
  {
    forall i | 0 <= i < |rs|
      ensures AnswerOf(([p] + ps)[i], rs[i])
    {
      if i > 0 { assert AnswerOf(ps[i - 1], rs[1..][i - 1]); }
    }
  }
}
