/** Record contents as sequences of typed fields, the layouts of the record types, and what it means
    for a buffer to hold a record (sections 4.1.1 to 4.1.3 of RFC 1035). */
module DnsRecords {
  import opened Octets
  import opened DnsNames
  import opened DnsWire
  import opened DnsWriter

  datatype Kind = K8 | K16 | K32 | K48 | KAddress | KName | KRest

  /** One conv.xfr* call with the value it carries. */
  datatype Field =
    | F8(b: Byte)
    | F16(w: Word16)
    | F32(d: Word32)
    | F48(q: nat)
    | FAddress(ip6: Bytes)
    | FName(name: Name, compress: bool)
    | FRest(blob: Bytes)
  {
    predicate Valid() {
      match this
      case F48(q) => q < 0x1_0000_0000_0000
      case FAddress(ip6) => |ip6| == 16
      case FName(n, _) => ValidName(n)
      case _ => true
    }

    function Kind(): Kind {
      match this
      case F8(_) => K8
      case F16(_) => K16
      case F32(_) => K32
      case F48(_) => K48
      case FAddress(_) => KAddress
      case FName(_, _) => KName
      case FRest(_) => KRest
    }

    predicate IsInteger() {
      F8? || F16? || F32? || F48?
    }

    /** The octets of a field that is not a name. */
    function Octets(): Bytes {
      match this
      case F8(b) => [b]
      case F16(w) => Be16(w)
      case F32(d) => Be32(d)
      case F48(q) => Be16(q / 0x1_0000_0000) + Be32(q % 0x1_0000_0000)
      case FAddress(ip6) => ip6
      case FName(_, _) => []
      case FRest(b) => b
    }
  }

  datatype Record = Record(owner: Name, rtype: Word16, rclass: Word16, ttl: Word32, place: Place, fields: seq<Field>)

  /** Types whose contents the program reads with a parser of its own, none of them made of fields
      alone: text (also of class 3), HINFO, LOC, NAPTR, NSEC, NSEC3, NSEC3PARAM, SPF, TSIG and the two
      fancy types. */
  predicate HasOwnParser(rclass: Word16, rtype: Word16) {
    || (rclass == 1 && rtype in {13, 16, 29, 35, 47, 50, 51, 99, 256, 257})
    || (rclass == 3 && rtype == 16)
    || (rclass == 255 && rtype == 250)
  }

  /** The field list of a registered record type; the contents of the others are kept as raw octets. The
      class of an OPT record is not a class. */
  function Layout(rclass: Word16, rtype: Word16): seq<Kind>
  {
    if rclass != 1 && rtype != 41 then [KRest]
    else match rtype
      case 1 => [K32]                                                 // A
      case 2 => [KName]                                               // NS
      case 5 => [KName]                                               // CNAME
      case 6 => [KName, KName, K32, K32, K32, K32, K32]               // SOA
      case 12 => [KName]                                              // PTR
      case 15 => [K16, KName]                                         // MX
      case 17 => [KName, KName]                                       // RP
      case 18 => [K16, KName]                                         // AFSDB
      case 25 => [K16, K8, K8, KRest]                                 // KEY
      case 28 => [KAddress]                                           // AAAA
      case 33 => [K16, K16, K16, KName]                               // SRV
      case 37 => [K16, K16, K8, KRest]                                // CERT
      case 43 => [K16, K8, K8, KRest]                                 // DS
      case 44 => [K8, K8, KRest]                                      // SSHFP
      case 46 => [K16, K8, K8, K32, K32, K32, K16, KName, KRest]      // RRSIG
      case 48 => [K16, K8, K8, KRest]                                 // DNSKEY
      case _ => [KRest]
  }

  ghost predicate BytesAt(v: View, pos: nat, b: Bytes) {
    pos + |b| <= |v| && v[pos..pos + |b|] == b
  }

  ghost predicate FieldAt(v: View, pos: nat, f: Field) {
    if f.FName? then NameAt(v, pos, f.name) else BytesAt(v, pos, f.Octets())
  }

  ghost function FieldEnd(v: View, pos: nat, f: Field): (e: nat)
    requires FieldAt(v, pos, f)
    ensures pos <= e <= |v|
  {
    if f.FName? then NameEnd(v, pos, f.name) else pos + |f.Octets()|
  }

  ghost predicate FieldsAt(v: View, pos: nat, fs: seq<Field>)
    decreases |fs|
  {
    if fs == [] then pos <= |v|
    else FieldAt(v, pos, fs[0]) && FieldsAt(v, FieldEnd(v, pos, fs[0]), fs[1..])
  }

  ghost function FieldsEnd(v: View, pos: nat, fs: seq<Field>): (e: nat)
    requires FieldsAt(v, pos, fs)
    ensures pos <= e <= |v|
    decreases |fs|
  {
    if fs == [] then pos else FieldsEnd(v, FieldEnd(v, pos, fs[0]), fs[1..])
  }

  /** A name, or the pointer that "see question" writes when the question is the root. */
  ghost predicate OwnerAt(v: View, pos: nat, n: Name) {
    NameAt(v, pos, n) ||
    (n == [] && PointerAt(v, pos) && Target(v, pos) == HEADER && HEADER < pos && v[HEADER] == 0)
  }

  ghost function OwnerEnd(v: View, pos: nat, n: Name): (e: nat)
    requires OwnerAt(v, pos, n)
    ensures pos < e <= |v|
  {
    if NameAt(v, pos, n) then NameEnd(v, pos, n) else pos + 2
  }

  /** Everything behind the owner name: header with the right length, then the fields. */
  ghost predicate BodyAt(v: View, pos: nat, r: Record) {
    FieldsAt(v, pos + RECORD_HEADER, r.fields) &&
    BodyLength(v, pos, r) < 0x1_0000 &&
    BytesAt(v, pos, RecordHeader(HeadOf(r), BodyLength(v, pos, r)))
  }

  ghost function BodyLength(v: View, pos: nat, r: Record): nat
    requires FieldsAt(v, pos + RECORD_HEADER, r.fields)
  {
    FieldsEnd(v, pos + RECORD_HEADER, r.fields) - (pos + RECORD_HEADER)
  }

  ghost predicate RecordAt(v: View, pos: nat, r: Record) {
    OwnerAt(v, pos, r.owner) && BodyAt(v, OwnerEnd(v, pos, r.owner), r)
  }

  ghost function RecordEnd(v: View, pos: nat, r: Record): (e: nat)
    requires RecordAt(v, pos, r)
    ensures pos < e <= |v|
  {
    FieldsEnd(v, OwnerEnd(v, pos, r.owner) + RECORD_HEADER, r.fields)
  }

  function HeadOf(r: Record): Head {
    Head(Text(r.owner), r.rtype, r.rclass, r.ttl, r.place)
  }

  ghost predicate RecordsAt(v: View, pos: nat, rs: seq<Record>)
    decreases |rs|
  {
    if rs == [] then pos <= |v|
    else RecordAt(v, pos, rs[0]) && RecordsAt(v, RecordEnd(v, pos, rs[0]), rs[1..])
  }

  ghost function RecordsEnd(v: View, pos: nat, rs: seq<Record>): (e: nat)
    requires RecordsAt(v, pos, rs)
    ensures pos + |rs| <= e <= |v|
    decreases |rs|
  {
    if rs == [] then pos else RecordsEnd(v, RecordEnd(v, pos, rs[0]), rs[1..])
  }

  // ---- All of this survives filling holes and appending ---------------------------------------

  lemma BytesRefine(v: View, w: View, pos: nat, b: Bytes)
    requires Refines(v, w) && BytesAt(v, pos, b)
    ensures BytesAt(w, pos, b)
  {
    forall i | 0 <= i < |b|
      ensures w[pos + i] == b[i]
    {
      assert v[pos + i] == v[pos..pos + |b|][i] == b[i];
    }
  }

  lemma {:induction false} FieldsRefine(v: View, w: View, pos: nat, fs: seq<Field>)
    requires Refines(v, w) && FieldsAt(v, pos, fs)
    ensures FieldsAt(w, pos, fs) && FieldsEnd(w, pos, fs) == FieldsEnd(v, pos, fs)
    decreases |fs|
  {
    if fs != [] {
      var f := fs[0];
      if f.FName? { NameRefines(v, w, pos, f.name); } else { BytesRefine(v, w, pos, f.Octets()); }
      FieldsRefine(v, w, FieldEnd(v, pos, f), fs[1..]);
    }
  }

  lemma OwnerRefines(v: View, w: View, pos: nat, n: Name)
    requires Refines(v, w) && OwnerAt(v, pos, n)
    ensures OwnerAt(w, pos, n) && OwnerEnd(w, pos, n) == OwnerEnd(v, pos, n)
  {
    if NameAt(v, pos, n) {
      NameRefines(v, w, pos, n);
    } else {
      assert w[pos] == v[pos] && w[pos + 1] == v[pos + 1] && w[HEADER] == v[HEADER];
      assert !LiteralAt(w, pos, n);
    }
  }

  lemma BodyRefines(v: View, w: View, pos: nat, r: Record)
    requires Refines(v, w) && BodyAt(v, pos, r)
    ensures BodyAt(w, pos, r) && BodyLength(w, pos, r) == BodyLength(v, pos, r)
  {
    FieldsRefine(v, w, pos + RECORD_HEADER, r.fields);
    BytesRefine(v, w, pos, RecordHeader(HeadOf(r), BodyLength(v, pos, r)));
  }

  lemma RecordRefines(v: View, w: View, pos: nat, r: Record)
    requires Refines(v, w) && RecordAt(v, pos, r)
    ensures RecordAt(w, pos, r) && RecordEnd(w, pos, r) == RecordEnd(v, pos, r)
  {
    OwnerRefines(v, w, pos, r.owner);
    BodyRefines(v, w, OwnerEnd(v, pos, r.owner), r);
  }

  lemma {:induction false} RecordsRefine(v: View, w: View, pos: nat, rs: seq<Record>)
    requires Refines(v, w) && RecordsAt(v, pos, rs)
    ensures RecordsAt(w, pos, rs) && RecordsEnd(w, pos, rs) == RecordsEnd(v, pos, rs)
    decreases |rs|
  {
    if rs != [] {
      RecordRefines(v, w, pos, rs[0]);
      RecordsRefine(v, w, RecordEnd(v, pos, rs[0]), rs[1..]);
    }
  }

  lemma {:induction false} RecordsSnoc(v: View, pos: nat, rs: seq<Record>, r: Record)
    requires RecordsAt(v, pos, rs) && RecordAt(v, RecordsEnd(v, pos, rs), r)
    ensures RecordsAt(v, pos, rs + [r])
    ensures RecordsEnd(v, pos, rs + [r]) == RecordEnd(v, RecordsEnd(v, pos, rs), r)
    decreases |rs|
  {
    if rs == [] {
      assert (rs + [r])[1..] == [];
    } else {
      assert (rs + [r])[1..] == rs[1..] + [r];
      RecordsSnoc(v, RecordEnd(v, pos, rs[0]), rs[1..], r);
    }
  }
}
