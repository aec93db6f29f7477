/** The packet parser: header, questions and records, with the typed record contents behind them. */
module DnsParser {
  import opened Octets
  import opened DnsNames
  import opened DnsWire
  import opened DnsWriter
  import opened DnsReader
  import opened DnsRecords
  import opened Wrappers

  datatype Failure = OUT_OF_PACKET | BAD_DATA

  datatype Value = Num(n: nat) | NameText(text: Bytes) | Data(octets: Bytes)

  datatype Read<T> = Got(value: T, next: nat) | Failed(failure: Failure)

  function FromBe(b: Bytes): nat {
    if b == [] then 0 else FromBe(b[..|b| - 1]) * 256 + b[|b| - 1]
  }

  function ReadInt(content: Bytes, pos: nat, size: nat): Read<nat> {
    if pos + size > |content| then Failed(OUT_OF_PACKET) else Got(FromBe(content[pos..pos + size]), pos + size)
  }

  function ReadName(content: Bytes, pos: nat): Read<Bytes> {
    match GetLabelFromContent(content, pos, [], 0)
    case GotLabel(text, next) => Got(text, next)
    case OutOfRange => Failed(OUT_OF_PACKET)
    case Loop => Failed(BAD_DATA)
  }

  /** xfrBlob: the rest of the record. It looks at the octet at pos even when nothing is left to copy. */
  function ReadRest(content: Bytes, pos: nat, start: nat, clen: nat): Read<Bytes> {
    if clen == 0 then Got([], start)
    else if pos >= |content| || start + clen > |content| then Failed(OUT_OF_PACKET)
    else if pos > start + clen then Failed(BAD_DATA)
    else Got(content[pos..start + clen], start + clen)
  }

  /** copyRecord of an IPv6 address: a packet too short for it is malformed, even when it is truncated. */
  function ReadAddress(content: Bytes, pos: nat): Read<Bytes> {
    if pos + 16 > |content| then Failed(BAD_DATA) else Got(content[pos..pos + 16], pos + 16)
  }

  function KindSize(k: Kind): nat
    requires !k.KAddress? && !k.KName? && !k.KRest?
  {
    match k case K8 => 1 case K16 => 2 case K32 => 4 case K48 => 6
  }

  function ReadField(content: Bytes, pos: nat, start: nat, clen: nat, k: Kind): Read<Value> {
    match k
    case KAddress =>
      (match ReadAddress(content, pos) case Got(ip6, next) => Got(Data(ip6), next) case Failed(f) => Failed(f))
    case KName =>
      (match ReadName(content, pos) case Got(text, next) => Got(NameText(text), next) case Failed(f) => Failed(f))
    case KRest =>
      (match ReadRest(content, pos, start, clen) case Got(b, next) => Got(Data(b), next) case Failed(f) => Failed(f))
    case _ =>
      (match ReadInt(content, pos, KindSize(k)) case Got(n, next) => Got(Num(n), next) case Failed(f) => Failed(f))
  }

  function ReadFields(content: Bytes, pos: nat, start: nat, clen: nat, ks: seq<Kind>): Read<seq<Value>>
    decreases |ks|
  {
    if ks == [] then Got([], pos)
    else
      match ReadField(content, pos, start, clen, ks[0])
      case Failed(f) => Failed(f)
      case Got(v, next) =>
        match ReadFields(content, next, start, clen, ks[1..])
        case Failed(f) => Failed(f)
        case Got(vs, end) => Got([v] + vs, end)
  }

  /** The length checks of A and AAAA. */
  predicate LengthOk(rclass: nat, rtype: nat, clen: nat) {
    rclass == 1 ==> (rtype == 1 ==> clen == 4) && (rtype == 28 ==> clen == 16)
  }

  datatype ParsedRecord = ParsedRecord(name: Bytes, rtype: Word16, rclass: Word16, ttl: Word32, clen: Word16,
                                       place: Place, values: seq<Value>, end: nat)

  function ReadRecord(content: Bytes, pos: nat, place: Place): Read<ParsedRecord> {
    match ReadName(content, pos)
    case Failed(f) => Failed(f)
    case Got(name, at) => ReadBody(content, at, name, place)
  }

  function ReadBody(content: Bytes, at: nat, name: Bytes, place: Place): Read<ParsedRecord> {
    if at + RECORD_HEADER > |content| then Failed(OUT_OF_PACKET)
    else
      var start := at + RECORD_HEADER;
      var rtype, rclass := FromBe16(content[at..at + 2]), FromBe16(content[at + 2..at + 4]);
      var ttl, clen := FromBe32(content[at + 4..at + 8]), FromBe16(content[at + 8..start]);
      if !LengthOk(rclass, rtype, clen) then Failed(BAD_DATA)
      else
        match ReadFields(content, start, start, clen, Layout(rclass, rtype))
        case Failed(f) => Failed(f)
        case Got(values, next) => Got(ParsedRecord(name, rtype, rclass, ttl, clen, place, values, next), next)
  }

  datatype Counts = Counts(an: nat, ns: nat, ar: nat)

  function Total(c: Counts): nat {
    c.an + c.ns + c.ar
  }

  function PlaceOf(c: Counts, n: nat): Place {
    if n < c.an then ANSWER else if n < c.an + c.ns then AUTHORITY else ADDITIONAL
  }

  datatype Answers = Answers(records: seq<ParsedRecord>, failure: Option<Failure>)

  /** Records n up to the total of the counts. */
  function ReadRecords(content: Bytes, pos: nat, c: Counts, n: nat): Answers
    decreases Total(c) - n
  {
    if n >= Total(c) then Answers([], None)
    else
      match ReadRecord(content, pos, PlaceOf(c, n))
      case Failed(f) => Answers([], Some(f))
      case Got(r, next) =>
        var rest := ReadRecords(content, next, c, n + 1);
        Answers([r] + rest.records, rest.failure)
  }

  lemma {:induction false} MoreRecords(content: Bytes, pos: nat, c: Counts, n: nat, before: seq<ParsedRecord>, r: ParsedRecord, next: nat, n': nat)
    requires n < Total(c) && ReadRecord(content, pos, PlaceOf(c, n)) == Got(r, next) && n' == n + 1
    ensures var a, b := ReadRecords(content, pos, c, n), ReadRecords(content, next, c, n');
            a.failure == b.failure && before + a.records == before + [r] + b.records
  {
    var b := ReadRecords(content, next, c, n');
    assert before + ([r] + b.records) == before + [r] + b.records;
  }

  datatype Question = Question(name: Bytes, qtype: nat, qclass: nat)

  function ReadQuestion(content: Bytes, pos: nat): Read<Question> {
    match ReadName(content, pos)
    case Failed(f) => Failed(f)
    case Got(name, at) =>
      if at + 4 > |content| then Failed(OUT_OF_PACKET)
      else Got(Question(name, FromBe16(content[at..at + 2]), FromBe16(content[at + 2..at + 4])), at + 4)
  }

  /** The last question wins. */
  function ReadQuestions(content: Bytes, pos: nat, left: nat, q: Question): Read<Question>
    decreases left
  {
    if left == 0 then Got(q, pos)
    else
      match ReadQuestion(content, pos)
      case Failed(f) => Failed(f)
      case Got(r, next) => ReadQuestions(content, next, left - 1, r)
  }

  datatype Parsed = Parsed(question: Question, counts: Counts, answers: seq<ParsedRecord>) | ParseError

  function Opcode(packet: Bytes): nat
    requires |packet| >= HEADER
  {
    packet[2] / 8 % 16
  }

  function TruncatedFlag(packet: Bytes): bool
    requires |packet| >= HEADER
  {
    packet[2] / 2 % 2 == 1
  }

  function CountsOf(packet: Bytes): Counts
    requires |packet| >= HEADER
  {
    Counts(FromBe16(packet[6..8]), FromBe16(packet[8..10]), FromBe16(packet[10..12]))
  }

  /** After a truncated packet ran out at record n. */
  function Adjusted(c: Counts, n: nat): Counts {
    if n < c.an then Counts(n, 0, 0)
    else if n < c.an + c.ns then Counts(c.an, n - c.an, 0)
    else Counts(c.an, c.ns, n - c.an - c.ns)
  }

  function Parse(packet: Bytes): Parsed {
    if |packet| < HEADER then ParseError
    else if Opcode(packet) != 0 && Opcode(packet) != 4 then ParseError
    else
      var content := packet[HEADER..HEADER + (|packet| - HEADER) % 0x1_0000];
      var c := CountsOf(packet);
      match ReadQuestions(content, 0, FromBe16(packet[4..6]), Question([], 0, 0))
      case Failed(_) => ParseError
      case Got(q, next) =>
        var a := ReadRecords(content, next, c, 0);
        if a.failure.None? then Parsed(q, c, a.records)
        else if a.failure.value.OUT_OF_PACKET? && TruncatedFlag(packet)
        then Parsed(q, Adjusted(c, |a.records|), a.records)
        else ParseError
  }

  // ---- The reader object ----------------------------------------------------------------------

  class PacketReader {
    const content: Bytes
    var pos: nat
    var startRecordPos: nat
    var recordLen: nat

    constructor (bytes: Bytes)
      ensures content == bytes && pos == 0
    {
      content := bytes;
      pos, startRecordPos, recordLen := 0, 0, 0;
    }

    /** The repeated shift and add of the integer readers, most significant octet first. */
    method GetInt(size: nat) returns (r: Read<nat>)
      modifies this`pos
      ensures r == ReadInt(content, old(pos), size)
      ensures r.Got? ==> pos == r.next
    {
      var n, ret: nat := 0, 0;
      while n < size
        invariant n <= size && pos == old(pos) + n
        invariant n > 0 ==> pos <= |content|
        invariant pos <= |content| ==> ret == FromBe(content[old(pos)..pos])
      {
        if pos >= |content| {
          return Failed(OUT_OF_PACKET);
        }
        assert content[old(pos)..pos + 1][..n] == content[old(pos)..pos];
        ret := ret * 256 + content[pos];
        pos := pos + 1;
        n := n + 1;
      }
      if pos > |content| { return Failed(OUT_OF_PACKET); }
      return Got(ret, pos);
    }

    method GetName() returns (r: Read<Bytes>)
      modifies this`pos
      ensures r == ReadName(content, old(pos))
      ensures r.Got? ==> pos == r.next
    {
      var l := GetLabel(content, pos, [], 0);
      match l {
        case GotLabel(text, next) =>
          pos := next;
          return Got(text, next);
        case OutOfRange => return Failed(OUT_OF_PACKET);
        case Loop => return Failed(BAD_DATA);
      }
    }

    method GetRest() returns (r: Read<Bytes>)
      modifies this`pos
      ensures r == ReadRest(content, old(pos), startRecordPos, recordLen)
      ensures r.Got? ==> pos == r.next
    {
      var blob: Bytes := [];
      if recordLen != 0 {
        if pos >= |content| || startRecordPos + recordLen > |content| {
          return Failed(OUT_OF_PACKET);
        }
        if pos > startRecordPos + recordLen {
          return Failed(BAD_DATA);
        }
        blob := content[pos..startRecordPos + recordLen];
      }
      pos := startRecordPos + recordLen;
      return Got(blob, pos);
    }

    method GetAddress() returns (r: Read<Bytes>)
      modifies this`pos
      ensures r == ReadAddress(content, old(pos))
      ensures r.Got? ==> pos == r.next
    {
      if pos + 16 > |content| {
        return Failed(BAD_DATA);
      }
      var ip6 := content[pos..pos + 16];
      pos := pos + 16;
      return Got(ip6, pos);
    }

    method GetField(k: Kind) returns (r: Read<Value>)
      modifies this`pos
      ensures r == ReadField(content, old(pos), startRecordPos, recordLen, k)
      ensures r.Got? ==> pos == r.next
    {
      if k.KAddress? {
        var a := GetAddress();
        return if a.Got? then Got(Data(a.value), a.next) else Failed(a.failure);
      } else if k.KName? {
        var t := GetName();
        return if t.Got? then Got(NameText(t.value), t.next) else Failed(t.failure);
      } else if k.KRest? {
        var b := GetRest();
        return if b.Got? then Got(Data(b.value), b.next) else Failed(b.failure);
      } else {
        var n := GetInt(KindSize(k));
        return if n.Got? then Got(Num(n.value), n.next) else Failed(n.failure);
      }
    }

    /** The conv.xfr* calls of one record type, in order. */
    method GetFields(kinds: seq<Kind>) returns (r: Read<seq<Value>>)
      modifies this`pos
      ensures r == ReadFields(content, old(pos), startRecordPos, recordLen, kinds)
      ensures r.Got? ==> pos == r.next
      decreases |kinds|
    {
      if kinds == [] {
        return Got([], pos);
      }
      var v := GetField(kinds[0]);
      if v.Failed? {
        return Failed(v.failure);
      }
      var vs := GetFields(kinds[1..]);
      return if vs.Got? then Got([v.value] + vs.value, vs.next) else Failed(vs.failure);
    }

    method GetRecord(place: Place) returns (r: Read<ParsedRecord>)
      modifies this
      ensures r == ReadRecord(content, old(pos), place)
      ensures r.Got? ==> pos == r.next
    {
      var name := GetName();
      if name.Failed? {
        return Failed(name.failure);
      }
      if pos + RECORD_HEADER > |content| {
        return Failed(OUT_OF_PACKET);
      }
      var rtype, rclass := FromBe16(content[pos..pos + 2]), FromBe16(content[pos + 2..pos + 4]);
      var ttl, clen := FromBe32(content[pos + 4..pos + 8]), FromBe16(content[pos + 8..pos + 10]);
      pos := pos + RECORD_HEADER;
      startRecordPos, recordLen := pos, clen;
      if !LengthOk(rclass, rtype, clen) {
        return Failed(BAD_DATA);
      }
      var vs := GetFields(Layout(rclass, rtype));
      if vs.Failed? {
        return Failed(vs.failure);
      }
      return Got(ParsedRecord(name.value, rtype, rclass, ttl, clen, place, vs.value, pos), pos);
    }

    method GetQuestion() returns (r: Read<Question>)
      modifies this`pos
      ensures r == ReadQuestion(content, old(pos))
      ensures r.Got? ==> pos == r.next
    {
      var name := GetName();
      if name.Failed? {
        return Failed(name.failure);
      }
      if pos + 4 > |content| {
        return Failed(OUT_OF_PACKET);
      }
      var q := Question(name.value, FromBe16(content[pos..pos + 2]), FromBe16(content[pos + 2..pos + 4]));
      pos := pos + 4;
      return Got(q, pos);
    }

    method GetQuestions(qd: nat) returns (r: Read<Question>)
      modifies this`pos
      ensures r == ReadQuestions(content, old(pos), qd, Question([], 0, 0))
      ensures r.Got? ==> pos == r.next
    {
      var q, n := Question([], 0, 0), 0;
      while n < qd
        invariant n <= qd
        invariant ReadQuestions(content, old(pos), qd, Question([], 0, 0)) == ReadQuestions(content, pos, qd - n, q)
      {
        var one := GetQuestion();
        if one.Failed? {
          return one;
        }
        q := one.value;
        n := n + 1;
      }
      return Got(q, pos);
    }

    method GetRecords(c: Counts) returns (a: Answers)
      modifies this
      ensures a == ReadRecords(content, old(pos), c, 0)
    {
      var answers: seq<ParsedRecord>, n := [], 0;
      ghost var rest := ReadRecords(content, pos, c, 0);
      ghost var records, failure := rest.records, rest.failure;
      while n < Total(c)
        invariant n == |answers| <= Total(c) && rest == ReadRecords(content, pos, c, n)
        invariant records == answers + rest.records && failure == rest.failure
      {
        ghost var at := pos;
        var r := GetRecord(PlaceOf(c, n));
        if r.Failed? {
          return Answers(answers, Some(r.failure));
        }
        MoreRecords(content, at, c, n, answers, r.value, pos, n + 1);
        answers := answers + [r.value];
        n := n + 1;
        rest := ReadRecords(content, pos, c, n);
      }
      return Answers(answers, None);
    }
  }

  /** MOADNSParser::init, with its handling of packets that end early. */
  method ParsePacket(packet: Bytes) returns (p: Parsed)
    ensures p == Parse(packet)
  {
    if |packet| < HEADER {
      return ParseError;
    }
    if Opcode(packet) != 0 && Opcode(packet) != 4 {
      return ParseError;
    }
    var pr := new PacketReader(packet[HEADER..HEADER + (|packet| - HEADER) % 0x1_0000]);
    var c := CountsOf(packet);
    var q := pr.GetQuestions(FromBe16(packet[4..6]));
    if q.Failed? {
      return ParseError;
    }
    var a := pr.GetRecords(c);
    if a.failure.None? {
      return Parsed(q.value, c, a.records);
    }
    if a.failure.value.OUT_OF_PACKET? && TruncatedFlag(packet) {
      return Parsed(q.value, Adjusted(c, |a.records|), a.records);
    }
    return ParseError;
  }
}
