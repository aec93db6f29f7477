/** Whole packets: a question and any number of records written in section order parse to the same
    question and the same records. */
module DnsRoundTrip {
  import opened Octets
  import opened DnsNames
  import opened DnsWire
  import opened DnsWriter
  import opened DnsRecords
  import opened DnsReader
  import opened DnsParser
  import opened DnsReadBack
  import opened DnsPacket
  import opened Wrappers

  /** One record, committed explicitly or left for the next startRecord to commit. */
  datatype Step = Step(r: Record, commit: bool)

  function WriteRecord(w: Writer, r: Record): Outcome {
    var o := StartRecord(w, HeadOf(r));
    if o.ok then WriteFields(o.w, r.fields) else o
  }

  /** startRecord and the content of the record. */
  method PutRecord(w: PacketWriter, r: Record) returns (ok: bool)
    modifies w
    ensures Outcome(ok, w.State()) == WriteRecord(old(w.State()), r)
  {
    hide StartRecord, WriteFields;
    ok := w.BeginRecord(Text(r.owner), r.rtype, r.ttl, r.rclass, r.place);
    if ok {
      ok := PutFields(w, r.fields);
    }
  }

  function WriteStep(w: Writer, s: Step): Outcome {
    var o := WriteRecord(w, s.r);
    if o.ok && s.commit then Commit(o.w) else o
  }

  function WriteAll(w: Writer, steps: seq<Step>): Outcome
    decreases |steps|
  {
    if steps == [] then Outcome(true, w)
    else
      var o := WriteStep(w, steps[0]);
      if o.ok then WriteAll(o.w, steps[1..]) else o
  }

  function RecordsOf(steps: seq<Step>): (rs: seq<Record>)
    ensures |rs| == |steps| && forall i :: 0 <= i < |rs| ==> rs[i] == steps[i].r
  {
    seq(|steps|, i requires 0 <= i < |steps| => steps[i].r)
  }

  predicate OpenAtEnd(steps: seq<Step>) {
    steps != [] && !steps[|steps| - 1].commit
  }

  function Init<T>(s: seq<T>): seq<T>
    requires s != []
  {
    s[..|s| - 1]
  }

  function Last<T>(s: seq<T>): T
    requires s != []
  {
    s[|s| - 1]
  }

  /** Something ends up in the record buffer. */
  predicate HasData(fs: seq<Field>) {
    exists i :: 0 <= i < |fs| && (fs[i].FName? || fs[i].Octets() != [])
  }

  predicate WellFormed(r: Record) {
    ValidName(r.owner) && AllValid(r.fields)
  }

  /** startRecord only commits a record that holds data, so the others have to be committed explicitly. */
  predicate NothingLost(steps: seq<Step>) {
    forall i :: 0 <= i < |steps| - 1 ==> steps[i].commit || HasData(steps[i].r.fields)
  }

  ghost predicate After(w: Writer, a: Ask, steps: seq<Step>) {
    if OpenAtEnd(steps)
    then InRecord(w, a, RecordsOf(Init(steps)), Last(steps).r, Last(steps).r.fields)
    else Between(w, a, RecordsOf(steps))
  }

  function Mass(w: Writer): nat {
    |w.content| + |w.record|
  }

  // ---- The packet only grows ------------------------------------------------------------------

  lemma CommitGrows(w: Writer)
    ensures Mass(w) <= Mass(Commit(w).w)
  {
  }

  lemma StartGrows(w: Writer, h: Head)
    ensures Mass(w) <= Mass(StartRecord(w, h).w)
  {
    hide LabelOf, Commit;
    if w.record != [] { CommitGrows(w); }
  }

  lemma {:induction false} FieldsGrow(w: Writer, fs: seq<Field>)
    ensures Mass(w) <= Mass(WriteFields(w, fs).w)
    decreases |fs|
  {
    hide LabelOf;
    if fs != [] && WriteField(w, fs[0]).ok { FieldsGrow(WriteField(w, fs[0]).w, fs[1..]); }
  }

  lemma StepGrows(w: Writer, s: Step)
    ensures Mass(StartRecord(w, HeadOf(s.r)).w) <= Mass(WriteRecord(w, s.r).w) <= Mass(WriteStep(w, s).w)
    ensures Mass(w) <= Mass(WriteStep(w, s).w)
  {
    hide StartRecord, WriteFields, Commit;
    var o := StartRecord(w, HeadOf(s.r));
    StartGrows(w, HeadOf(s.r));
    FieldsGrow(o.w, s.r.fields);
    CommitGrows(WriteRecord(w, s.r).w);
  }

  lemma {:induction false} AllGrow(w: Writer, steps: seq<Step>)
    ensures Mass(w) <= Mass(WriteAll(w, steps).w)
    decreases |steps|
  {
    hide WriteStep;
    if steps != [] {
      StepGrows(w, steps[0]);
      if WriteStep(w, steps[0]).ok { AllGrow(WriteStep(w, steps[0]).w, steps[1..]); }
    }
  }

  // ---- Writing step by step -------------------------------------------------------------------

  lemma {:induction false} DataTakesRoom(v: View, pos: nat, fs: seq<Field>)
    requires FieldsAt(v, pos, fs) && HasData(fs)
    ensures FieldsEnd(v, pos, fs) > pos
    decreases |fs|
  {
    var i :| 0 <= i < |fs| && (fs[i].FName? || fs[i].Octets() != []);
    if i > 0 {
      assert fs[1..][i - 1] == fs[i];
      DataTakesRoom(v, FieldEnd(v, pos, fs[0]), fs[1..]);
    }
  }

  lemma {:induction false} OpenRecordHasData(w: Writer, a: Ask, rs: seq<Record>, r: Record, fs: seq<Field>)
    requires InRecord(w, a, rs, r, fs) && HasData(fs)
    ensures w.record != []
  {
    OpenFields(w, a, rs, r, fs);
    hide InRecord, FieldsAt, FieldsEnd, HasData, ViewOf;
    DataTakesRoom(ViewOf(w), |w.content| + RECORD_HEADER, fs);
  }

  lemma {:induction false} OpenFields(w: Writer, a: Ask, rs: seq<Record>, r: Record, fs: seq<Field>)
    requires InRecord(w, a, rs, r, fs)
    ensures |w.content| >= HEADER && w.stuff == RECORD_HEADER
    ensures FieldsAt(ViewOf(w), |w.content| + RECORD_HEADER, fs)
    ensures FieldsEnd(ViewOf(w), |w.content| + RECORD_HEADER, fs) == Position(w)
  {
  }

  lemma RecordsOfSnoc(done: seq<Step>)
    requires done != []
    ensures RecordsOf(done) == RecordsOf(Init(done)) + [Last(done).r]
  {
  }

  lemma BetweenIsEmpty(w: Writer, a: Ask, rs: seq<Record>)
    requires Between(w, a, rs)
    ensures w.record == []
  {
  }

  lemma Settles(w: Writer, a: Ask, done: seq<Step>)
    requires After(w, a, done) && Mass(w) < 0x1_0000
    requires OpenAtEnd(done) ==> HasData(Last(done).r.fields)
    ensures if OpenAtEnd(done) then w.record != [] && Commit(w).ok && Between(Commit(w).w, a, RecordsOf(done))
            else w.record == [] && Between(w, a, RecordsOf(done))
  {
    hide InRecord, Between, Commit, HasData, RecordsOf;
    if OpenAtEnd(done) {
      OpenRecordHasData(w, a, RecordsOf(Init(done)), Last(done).r, Last(done).r.fields);
      CommitOk(w, a, RecordsOf(Init(done)), Last(done).r);
      RecordsOfSnoc(done);
    } else {
      BetweenIsEmpty(w, a, RecordsOf(done));
    }
  }

  lemma StartOk(w: Writer, a: Ask, done: seq<Step>, r: Record)
    requires After(w, a, done) && Mass(StartRecord(w, HeadOf(r)).w) < 0x1_0000
    requires OpenAtEnd(done) ==> HasData(Last(done).r.fields)
    requires ValidName(a.name) && ValidName(r.owner)
    ensures var o := StartRecord(w, HeadOf(r)); o.ok && InRecord(o.w, a, RecordsOf(done), r, [])
  {
    StartGrows(w, HeadOf(r));
    Settles(w, a, done);
    hide After, Between, InRecord, StartOwner, Commit, HasData;
    var v := if w.record == [] then w else Commit(w).w;
    assert StartRecord(w, HeadOf(r)) == StartOwner(v, HeadOf(r));
    OwnerGrows(v, HeadOf(r));
    StartOwnerOk(v, a, RecordsOf(done), r);
  }

  lemma OwnerGrows(w: Writer, h: Head)
    ensures Mass(w) <= Mass(StartOwner(w, h).w)
  {
    hide LabelOf;
  }

  lemma StepOk(w: Writer, a: Ask, done: seq<Step>, s: Step)
    requires After(w, a, done) && Mass(WriteStep(w, s).w) < 0x1_0000
    requires OpenAtEnd(done) ==> HasData(Last(done).r.fields)
    requires ValidName(a.name) && WellFormed(s.r)
    ensures var o := WriteStep(w, s); o.ok && After(o.w, a, done + [s])
  {
    hide InRecord, Between, StartRecord, WriteFields, Commit, HasData;
    StepGrows(w, s);
    StartOk(w, a, done, s.r);
    var o := StartRecord(w, HeadOf(s.r));
    WriteFieldsOk(o.w, a, RecordsOf(done), s.r, [], s.r.fields);
    assert [] + s.r.fields == s.r.fields;
    var f := WriteFields(o.w, s.r.fields);
    assert Init(done + [s]) == done && Last(done + [s]) == s;
    if s.commit {
      CommitOk(f.w, a, RecordsOf(done), s.r);
      assert RecordsOf(done + [s]) == RecordsOf(done) + [s.r];
    }
  }

  lemma {:induction false} WriteAllOk(w: Writer, a: Ask, done: seq<Step>, steps: seq<Step>)
    requires After(w, a, done) && Mass(WriteAll(w, steps).w) < 0x1_0000 && NothingLost(done + steps)
    requires ValidName(a.name) && forall i :: 0 <= i < |steps| ==> WellFormed(steps[i].r)
    ensures var o := WriteAll(w, steps); o.ok && After(o.w, a, done + steps)
    decreases |steps|
  {
    hide After, WriteStep, WellFormed, HasData;
    if steps == [] {
      assert done + steps == done;
    } else {
      var s := steps[0];
      if done != [] {
        assert (done + steps)[|done| - 1] == Last(done);
      }
      StepGrows(w, s);
      if WriteStep(w, s).ok { AllGrow(WriteStep(w, s).w, steps[1..]); }
      StepOk(w, a, done, s);
      assert done + [s] + steps[1..] == done + steps;
      WriteAllOk(WriteStep(w, s).w, a, done + [s], steps[1..]);
    }
  }

  // ---- Parsing what was written ---------------------------------------------------------------

  function Rank(p: Place): nat {
    match p case ANSWER => 0 case AUTHORITY => 1 case ADDITIONAL => 2
  }

  predicate InSectionOrder(rs: seq<Record>) {
    forall i, j :: 0 <= i < j < |rs| ==> Rank(rs[i].place) <= Rank(rs[j].place)
  }

  function Tally(rs: seq<Record>): Counts {
    Counts(CountOf(rs, ANSWER), CountOf(rs, AUTHORITY), CountOf(rs, ADDITIONAL))
  }

  lemma {:induction false} TallyTotal(rs: seq<Record>)
    ensures Total(Tally(rs)) == |rs|
  {
    if rs != [] { TallyTotal(Init(rs)); }
  }

  lemma TallySnoc(rs: seq<Record>, r: Record)
    ensures var c, d := Tally(rs), Tally(rs + [r]);
            && d.an == c.an + (if r.place.ANSWER? then 1 else 0)
            && d.ns == c.ns + (if r.place.AUTHORITY? then 1 else 0)
            && d.ar == c.ar + (if r.place.ADDITIONAL? then 1 else 0)
  {
    assert (rs + [r])[..|rs|] == rs;
  }

  lemma OrderSnoc(rs: seq<Record>, r: Record, all: seq<Record>)
    requires all == rs + [r] && InSectionOrder(all) && PlacesFit(Tally(rs), 0, rs)
    ensures PlacesFit(Tally(all), 0, all)
  {
    TallySnoc(rs, r);
    hide Tally;
    var c, d := Tally(rs), Tally(all);
    if rs != [] {
      assert rs[|rs| - 1].place == PlaceOf(c, 0 + (|rs| - 1));
      assert Rank(all[|rs| - 1].place) <= Rank(all[|rs|].place);
    }
    forall i | 0 <= i < |all|
      ensures all[i].place == PlaceOf(d, 0 + i)
    {
      if i < |rs| { assert rs[i].place == PlaceOf(c, 0 + i); }
    }
  }

  /** In section order the parser's counting rule recovers every section. */
  lemma {:induction false} OrderGivesPlaces(rs: seq<Record>)
    requires InSectionOrder(rs)
    ensures PlacesFit(Tally(rs), 0, rs)
  {
    if rs != [] {
      OrderGivesPlaces(Init(rs));
      OrderSnoc(Init(rs), Last(rs), rs);
    }
  }

  ghost predicate ParsesTo(content: Bytes, a: Ask, rs: seq<Record>) {
    var p := Parse(content);
    && p.Parsed?
    && Lower(p.question.name) == Lower(Text(a.name)) && p.question.qtype == a.qtype && p.question.qclass == a.qclass
    && p.counts == Tally(rs) && AnswersOf(p.answers, rs)
  }

  lemma BaseFills(content: Bytes)
    requires |content| >= HEADER
    ensures Refines(Base(content), content)
  {
  }

  lemma QuestionReads(packet: Bytes, a: Ask)
    requires QuestionAt(packet, a) && ShortName(a.name) && HEADER <= |packet| < 0x1_0000
    ensures var r := ReadQuestion(packet[HEADER..], 0);
            && r.Got? && Lower(r.value.name) == Lower(Text(a.name))
            && r.value.qtype == a.qtype && r.value.qclass == a.qclass && r.next + HEADER == QuestionEnd(packet, a)
  {
    NameReads(packet, HEADER, 0, a.name);
    var content := packet[HEADER..];
    var at := ReadName(content, 0).next;
    var b := Be16(a.qtype) + Be16(a.qclass);
    BytesRead(packet, NameEnd(packet, HEADER, a.name), at, b);
    SubSlice(content, at, at + 4, 0, 2);
    SubSlice(content, at, at + 4, 2, 4);
    assert b[0..2] == Be16(a.qtype) && b[2..4] == Be16(a.qclass);
  }

  lemma CountsParse(content: Bytes)
    requires |content| >= HEADER
    ensures CountsOf(content) == Counts(CountField(content, ANSWER), CountField(content, AUTHORITY), CountField(content, ADDITIONAL))
  {
  }

  lemma HeaderParses(content: Bytes, a: Ask, rs: seq<Record>)
    requires HeaderSays(content, a, rs) && |rs| < 0x1_0000
    ensures CountsOf(content) == Tally(rs) && FromBe16(content[4..6]) == 1
    ensures Opcode(content) == a.opcode % 16 && !TruncatedFlag(content)
  {
    hide CountField, CountOf, CountsOf;
    TallyTotal(rs);
    CountsParse(content);
    var h := HeaderOctets(a.opcode);
    assert content[2] == content[..6][2] == h[2] && content[4] == content[..6][4] == h[4] && content[5] == content[..6][5] == h[5];
    assert CountField(content, ANSWER) == CountOf(rs, ANSWER) % 0x1_0000;
    assert CountField(content, AUTHORITY) == CountOf(rs, AUTHORITY) % 0x1_0000;
    assert CountField(content, ADDITIONAL) == CountOf(rs, ADDITIONAL) % 0x1_0000;
  }

  lemma {:induction false} BodyParses(content: Bytes, a: Ask, rs: seq<Record>)
    requires Holds(content, a, rs) && HEADER <= |content| < 0x1_0000
    requires ShortName(a.name) && AllReadable(rs) && InSectionOrder(rs)
    ensures var body := content[HEADER..];
            var q := ReadQuestion(body, 0);
            && q.Got? && Lower(q.value.name) == Lower(Text(a.name)) && q.value.qtype == a.qtype && q.value.qclass == a.qclass
            && var r := ReadRecords(body, q.next, Tally(rs), 0);
            if LastEndsEmpty(rs) then r.failure == Some(OUT_OF_PACKET) else r.failure == None && AnswersOf(r.records, rs)
  {
    hide LastEndsEmpty, QuestionAt, RecordsAt, ReadQuestion, ReadRecords, AllReadable, InSectionOrder, PlacesFit, AnswersOf, Tally;
    QuestionReads(content, a);
    OrderGivesPlaces(rs);
    var at := ReadQuestion(content[HEADER..], 0).next;
    if LastEndsEmpty(rs) {
      LastRecordFails(content, QuestionEnd(content, a), at, rs, Tally(rs), 0);
    } else {
      RecordsRead(content, QuestionEnd(content, a), at, rs, Tally(rs), 0);
    }
  }

  lemma {:induction false} ParseAssembles(packet: Bytes, c: Counts)
    requires HEADER <= |packet| < 0x1_0000 && (Opcode(packet) == 0 || Opcode(packet) == 4) && !TruncatedFlag(packet)
    requires FromBe16(packet[4..6]) == 1 && CountsOf(packet) == c && ReadQuestion(packet[HEADER..], 0).Got?
    ensures var q := ReadQuestion(packet[HEADER..], 0);
            var a := ReadRecords(packet[HEADER..], q.next, c, 0);
            Parse(packet) == if a.failure == None then Parsed(q.value, c, a.records) else ParseError
  {
    hide ReadQuestion, ReadRecords, CountsOf, Opcode, FromBe16, TruncatedFlag;
    var body := packet[HEADER..];
    assert packet[HEADER..HEADER + (|packet| - HEADER) % 0x1_0000] == body;
    var q, none := ReadQuestion(body, 0), Question([], 0, 0);
    assert ReadQuestions(body, q.next, 0, q.value) == q;
    assert ReadQuestions(body, 0, 1, none) == q;
  }

  /** A settled packet parses to its question and records, unless the last record ends in an empty blob
      behind other fields: that packet is rejected. */
  lemma {:induction false} SettledParses(content: Bytes, a: Ask, rs: seq<Record>)
    requires Settled(content, a, rs) && |content| < 0x1_0000
    requires ShortName(a.name) && (a.opcode % 16 == 0 || a.opcode % 16 == 4)
    requires AllReadable(rs) && InSectionOrder(rs)
    ensures if LastEndsEmpty(rs) then Parse(content) == ParseError else ParsesTo(content, a, rs)
  {
    BaseFills(content);
    HoldsRefines(Base(content), content, a, rs);
    RecordsFit(content, a, rs);
    hide QuestionAt, RecordsAt, Holds, ReadQuestion, ReadRecords, AllReadable, InSectionOrder, AnswersOf, Tally, CountsOf, Opcode, HeaderSays, ShortName, Parse, LastEndsEmpty, TruncatedFlag;
    BodyParses(content, a, rs);
    HeaderParses(content, a, rs);
    ParseAssembles(content, Tally(rs));
  }

  lemma RecordsFit(v: View, a: Ask, rs: seq<Record>)
    requires Holds(v, a, rs)
    ensures |rs| <= |v|
  {
  }

  // ---- The round trip -------------------------------------------------------------------------

  predicate Printable(a: Ask, rs: seq<Record>) {
    ShortName(a.name) && (a.opcode % 16 == 0 || a.opcode % 16 == 4) && AllReadable(rs) && InSectionOrder(rs)
  }

  lemma {:induction false} ReadableIsWellFormed(steps: seq<Step>)
    requires AllReadable(RecordsOf(steps))
    ensures forall i :: 0 <= i < |steps| ==> WellFormed(steps[i].r)
  {
    if steps != [] {
      assert RecordsOf(steps)[1..] == RecordsOf(steps[1..]);
      ReadableIsWellFormed(steps[1..]);
      forall i | 0 <= i < |steps|
        ensures WellFormed(steps[i].r)
      {
        if i == 0 {
          assert Readable(RecordsOf(steps)[0]);
          forall j | 0 <= j < |steps[0].r.fields| ensures steps[0].r.fields[j].Valid() {
            assert ReadableField(steps[0].r.fields[j]);
          }
        } else {
          assert steps[1..][i - 1] == steps[i];
        }
      }
    }
  }

  lemma PrefixPrintable(a: Ask, rs: seq<Record>)
    requires Printable(a, rs) && rs != []
    ensures Printable(a, Init(rs))
  {
    ReadablePrefix(rs);
  }

  lemma {:induction false} ReadablePrefix(rs: seq<Record>)
    requires AllReadable(rs) && rs != []
    ensures AllReadable(Init(rs))
  {
    if |rs| > 1 {
      ReadablePrefix(rs[1..]);
      assert Init(rs)[1..] == Init(rs[1..]);
    }
  }

  /** The packet comes back, or is rejected because its last record ends in an empty blob. */
  ghost predicate ComesBack(content: Bytes, a: Ask, rs: seq<Record>) {
    if LastEndsEmpty(rs) then Parse(content) == ParseError else ParsesTo(content, a, rs)
  }

  /** Nothing is lost between writing and parsing: the packet closed by a last commit parses to all the
      records, and the packet closed by a rollback parses to all but the open one. */
  lemma {:induction false} PacketRoundTrip(w: Writer, a: Ask, steps: seq<Step>)
    requires Printable(a, RecordsOf(steps)) && NothingLost(steps)
    requires Mass(WriteAll(NewPacket(w, Text(a.name), a.qtype, a.qclass, a.opcode).w, steps).w) + RECORD_HEADER < 0x1_0000
    ensures var o := NewPacket(w, Text(a.name), a.qtype, a.qclass, a.opcode);
            var f := WriteAll(o.w, steps);
            && o.ok && f.ok
            && if OpenAtEnd(steps)
               then Commit(f.w).ok && ComesBack(Commit(f.w).w.content, a, RecordsOf(steps))
                    && ComesBack(Rollback(f.w).content, a, Init(RecordsOf(steps)))
               else ComesBack(f.w.content, a, RecordsOf(steps))
  {
    var o := NewPacket(w, Text(a.name), a.qtype, a.qclass, a.opcode);
    OpenOk(w, a);
    ReadableIsWellFormed(steps);
    assert After(o.w, a, []) by { assert RecordsOf([]) == []; }
    assert [] + steps == steps;
    hide ComesBack, Printable, After, WriteAll;
    WriteAllOk(o.w, a, [], steps);
    Closed(WriteAll(o.w, steps).w, a, steps);
  }

  lemma {:induction false} Closed(w: Writer, a: Ask, steps: seq<Step>)
    requires After(w, a, steps) && Printable(a, RecordsOf(steps)) && Mass(w) + RECORD_HEADER < 0x1_0000
    ensures if OpenAtEnd(steps)
            then Commit(w).ok && ComesBack(Commit(w).w.content, a, RecordsOf(steps))
                 && ComesBack(Rollback(w).content, a, Init(RecordsOf(steps)))
            else ComesBack(w.content, a, RecordsOf(steps))
  {
    var rs := RecordsOf(steps);
    hide ComesBack;
    if OpenAtEnd(steps) {
      var init, r := RecordsOf(Init(steps)), Last(steps).r;
      RecordsOfSnoc(steps);
      assert Init(rs) == init;
      PrefixPrintable(a, rs);
      ClosedByCommit(w, a, init, r);
      ClosedByRollback(w, a, init, r);
    } else {
      SettledComesBack(w.content, a, rs);
    }
  }

  lemma {:induction false} SettledComesBack(content: Bytes, a: Ask, rs: seq<Record>)
    requires Settled(content, a, rs) && |content| < 0x1_0000 && Printable(a, rs)
    ensures ComesBack(content, a, rs)
  {
    hide Settled, ParsesTo;
    SettledParses(content, a, rs);
  }

  lemma {:induction false} ClosedByCommit(w: Writer, a: Ask, rs: seq<Record>, r: Record)
    requires InRecord(w, a, rs, r, r.fields) && Printable(a, rs + [r]) && Mass(w) + RECORD_HEADER < 0x1_0000
    ensures Commit(w).ok && ComesBack(Commit(w).w.content, a, rs + [r])
  {
    CommitOk(w, a, rs, r);
    hide InRecord, Settled, ComesBack, Printable;
    SettledComesBack(Commit(w).w.content, a, rs + [r]);
  }

  lemma {:induction false} ClosedByRollback(w: Writer, a: Ask, rs: seq<Record>, r: Record)
    requires InRecord(w, a, rs, r, r.fields) && Printable(a, rs) && Mass(w) < 0x1_0000
    ensures ComesBack(Rollback(w).content, a, rs)
  {
    RollbackOk(w, a, rs, r, r.fields);
    hide Settled, ComesBack, Printable;
    SettledComesBack(Rollback(w).content, a, rs);
  }
}
