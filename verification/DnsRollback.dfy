/** Writing on after a rollback: the label map survives it, so the packet stays right exactly when the
    record that was rolled back remembered no name. */
module DnsRollback {
  import opened Octets
  import opened DnsNames
  import opened DnsWire
  import opened DnsWriter
  import opened DnsCompression
  import opened DnsRecords
  import opened DnsReadBack
  import opened DnsPacket
  import opened DnsRoundTrip
  import opened DnsLimits

  /** All entries point at or behind pos. */
  predicate Behind(m: LabelMap, pos: nat) {
    forall i :: 0 <= i < |m| ==> m[i].offset >= pos
  }

  lemma {:induction false} AddedBehind(m: LabelMap, n: Name, compress: bool, pos: nat)
    ensures Behind(EmitName(m, n, compress, pos).added, pos)
    decreases |n|
  {
    hide Find, Chop;
    if n != [] && !(compress && Find(m, Chop(n)) < |m|) {
      var own: LabelMap := if pos < 16384 then [Entry(Chop(n), pos)] else [];
      AddedBehind(m + own, n[1..], compress, pos + |n[0]| + 1);
    }
  }

  /** Writing a name remembers nothing exactly when it is the root, is already remembered and may be
      compressed, or comes too late in the packet. */
  lemma {:induction false} RemembersNothingIff(m: LabelMap, n: Name, compress: bool, pos: nat)
    ensures EmitName(m, n, compress, pos).added == []
        <==> n == [] || (compress && Find(m, Chop(n)) < |m|) || pos >= 16384
    decreases |n|
  {
    if n != [] && !(compress && Find(m, Chop(n)) < |m|) && pos >= 16384 {
      var none: LabelMap := [];
      assert m + none == m;
      RemembersNothingIff(m, n[1..], compress, pos + |n[0]| + 1);
    }
  }

  /** What a writer that has added to the one before keeps of it. */
  ghost predicate Extends(w: Writer, before: Writer, pos: nat) {
    && before.labels <= w.labels && Behind(w.labels[|before.labels|..], pos)
    && w.qname == before.qname && w.canonic == before.canonic && w.marker == before.marker
    && before.content <= w.content
  }

  lemma ExtendsMore(w: Writer, before: Writer, added: LabelMap, pos: nat, w': Writer)
    requires Extends(w, before, pos) && Behind(added, pos)
    requires w' == w.(labels := w.labels + added, record := w'.record)
    ensures Extends(w', before, pos)
  {
    var k := |before.labels|;
    assert w'.labels[k..] == w.labels[k..] + added;
  }

  lemma FieldExtends(w: Writer, f: Field, before: Writer, pos: nat)
    requires Extends(w, before, pos) && f.Valid() && pos <= Position(w)
    ensures Extends(WriteField(w, f).w, before, pos) && pos <= Position(WriteField(w, f).w)
  {
    hide EmitName, LabelOf, Extends;
    if f.FName? {
      LabelOfName(w, f.name, f.compress);
      var e := EmitName(w.labels, f.name, f.compress && !w.canonic, Position(w));
      AddedBehind(w.labels, f.name, f.compress && !w.canonic, Position(w));
      ExtendsMore(w, before, e.added, pos, WriteField(w, f).w);
    } else {
      assert w.labels + [] == w.labels;
      ExtendsMore(w, before, [], pos, WriteField(w, f).w);
    }
  }

  lemma {:induction false} FieldsExtend(w: Writer, fs: seq<Field>, before: Writer, pos: nat)
    requires Extends(w, before, pos) && AllValid(fs) && pos <= Position(w)
    ensures Extends(WriteFields(w, fs).w, before, pos)
    decreases |fs|
  {
    hide WriteField, Extends, Position;
    if fs != [] {
      FieldExtends(w, fs[0], before, pos);
      if WriteField(w, fs[0]).ok { FieldsExtend(WriteField(w, fs[0]).w, fs[1..], before, pos); }
    }
  }

  /** Starting a record remembers its owner name at the marker or behind it. */
  lemma OwnerExtends(w: Writer, r: Record)
    requires w.record == [] && !w.canonic && ValidName(r.owner) && |w.content| < 0x1_0000
    ensures var o := StartOwner(w, HeadOf(r));
            o.ok && Extends(o.w, w.(marker := |w.content|), |w.content|) && o.w.stuff == RECORD_HEADER
  {
    hide EmitName, LabelOf;
    if Lower(w.qname) == Lower(Text(r.owner)) {
      assert w.labels[|w.labels|..] == [];
    } else {
      EmitSucceeds(w.labels, r.owner, true, |w.content|);
      StartOwnerWrites(w, r);
      AddedBehind(w.labels, r.owner, true, |w.content|);
      var e := EmitName(w.labels, r.owner, true, |w.content|);
      assert (w.labels + e.added)[|w.labels|..] == e.added;
    }
  }

  /** A record written and rolled back: the content is what it was, and what was remembered points at or
      behind its end. */
  lemma {:induction false} RolledBack(w: Writer, r: Record)
    requires w.record == [] && !w.canonic && WellFormed(r) && |w.content| < 0x1_0000
    ensures var o := WriteRecord(w, r); var v := Rollback(o.w);
            && o.ok && v.content == w.content && v.record == [] && v.qname == w.qname && !v.canonic && v.stuff == 0
            && v.labels == o.w.labels && w.labels <= v.labels && Behind(v.labels[|w.labels|..], |w.content|)
  {
    OwnerExtends(w, r);
    var s := StartOwner(w, HeadOf(r));
    FieldsGrowIff(s.w, r.fields);
    FieldsExtend(s.w, r.fields, w.(marker := |w.content|), |w.content|);
    hide StartOwner, WriteFields, AllValid, WellFormed, Behind;
    assert StartRecord(w, HeadOf(r)) == s;
  }

  lemma BehindFrom(m: LabelMap, k: nat, pos: nat)
    requires k <= |m| && Behind(m[k..], pos)
    ensures k < |m| ==> m[k].offset >= pos
  {
    if k < |m| { assert m[k..][0] == m[k]; }
  }

  /** An entry behind the end of the content is wrong. */
  lemma BehindIsWrong(v: View, m: LabelMap, k: nat)
    requires MapOk(v, m) && k <= |m| && Behind(m[k..], |v|)
    ensures m == m[..k]
  {
    BehindFrom(m, k, |v|);
    forall i | 0 <= i < |m|
      ensures m[i].offset < |v|
    {
      assert EntryOk(v, m[i]);
    }
  }

  /** Writing this name at pos remembers nothing: it is the root, it is remembered already and may be
      compressed, or it comes too late in the packet. */
  predicate Quiet(m: LabelMap, n: Name, compress: bool, pos: nat) {
    n == [] || (compress && Find(m, Chop(n)) < |m|) || pos >= 16384
  }

  function FieldSize(m: LabelMap, f: Field, pos: nat): nat {
    if f.FName? then |EmitName(m, f.name, f.compress, pos).bytes| else |f.Octets()|
  }

  /** So for every name among the fields, each at the place where it will be. */
  predicate FieldsQuiet(m: LabelMap, fs: seq<Field>, pos: nat)
    decreases |fs|
  {
    fs == [] || ((fs[0].FName? ==> Quiet(m, fs[0].name, fs[0].compress, pos)) && FieldsQuiet(m, fs[1..], pos + FieldSize(m, fs[0], pos)))
  }

  /** The octets of an owner name. */
  function OwnerSize(w: Writer, n: Name): nat {
    if Lower(w.qname) == Lower(Text(n)) then 2 else |EmitName(w.labels, n, true, |w.content|).bytes|
  }

  predicate OwnerQuiet(w: Writer, n: Name) {
    Lower(w.qname) == Lower(Text(n)) || Quiet(w.labels, n, true, |w.content|)
  }

  predicate RemembersNothing(w: Writer, r: Record) {
    OwnerQuiet(w, r.owner) && FieldsQuiet(w.labels, r.fields, |w.content| + OwnerSize(w, r.owner) + RECORD_HEADER)
  }

  /** What a field does to the label map and to the place of the next one. */
  lemma {:induction false} FieldWrites(w: Writer, f: Field) returns (added: LabelMap)
    requires f.Valid() && !w.canonic
    ensures var o := WriteField(w, f);
            && o.ok && !o.w.canonic && o.w.labels == w.labels + added
            && Position(o.w) == Position(w) + FieldSize(w.labels, f, Position(w))
    ensures added == [] <==> (f.FName? ==> Quiet(w.labels, f.name, f.compress, Position(w)))
  {
    hide EmitName, LabelOf, Quiet;
    added := [];
    if f.FName? {
      LabelOfName(w, f.name, f.compress);
      EmitSucceeds(w.labels, f.name, f.compress, Position(w));
      NameQuiet(w.labels, f.name, f.compress, Position(w));
      added := EmitName(w.labels, f.name, f.compress, Position(w)).added;
    } else {
      assert w.labels + [] == w.labels;
    }
  }

  lemma {:induction false} NameQuiet(m: LabelMap, n: Name, compress: bool, pos: nat)
    ensures EmitName(m, n, compress, pos).added == [] <==> Quiet(m, n, compress, pos)
  {
    RemembersNothingIff(m, n, compress, pos);
  }

  lemma {:induction false} FieldsRememberNothingIff(w: Writer, fs: seq<Field>)
    requires AllValid(fs) && !w.canonic
    ensures var o := WriteFields(w, fs);
            o.ok && w.labels <= o.w.labels && (o.w.labels == w.labels <==> FieldsQuiet(w.labels, fs, Position(w)))
    decreases |fs|
  {
    hide WriteField, Quiet, FieldSize, Position;
    if fs != [] {
      var added := FieldWrites(w, fs[0]);
      var v := WriteField(w, fs[0]).w;
      FieldsRememberNothingIff(v, fs[1..]);
      if added == [] {
        assert v.labels == w.labels;
      } else {
        assert |v.labels| > |w.labels|;
      }
    }
  }

  /** What an owner name does to the label map, and where the fields start. */
  lemma {:induction false} OwnerWrites(w: Writer, r: Record)
    requires w.record == [] && !w.canonic && ValidName(r.owner)
    ensures var o := StartOwner(w, HeadOf(r));
            && o.ok && !o.w.canonic && w.labels <= o.w.labels && (o.w.labels == w.labels <==> OwnerQuiet(w, r.owner))
            && Position(o.w) == |w.content| + OwnerSize(w, r.owner) + RECORD_HEADER
  {
    hide EmitName, LabelOf, Quiet;
    if Lower(w.qname) != Lower(Text(r.owner)) {
      EmitSucceeds(w.labels, r.owner, true, |w.content|);
      StartOwnerWrites(w, r);
      NameQuiet(w.labels, r.owner, true, |w.content|);
    }
  }

  /** Whether a record remembers anything can be told before it is written: nothing, exactly when its owner
      is the question, and otherwise each of its names is the root, is remembered already and compressed,
      or is at 16384 or later. */
  lemma {:induction false} RecordRemembersNothingIff(w: Writer, r: Record)
    requires w.record == [] && !w.canonic && WellFormed(r)
    ensures WriteRecord(w, r).w.labels == w.labels <==> RemembersNothing(w, r)
  {
    OwnerWrites(w, r);
    var s := StartOwner(w, HeadOf(r));
    assert StartRecord(w, HeadOf(r)) == s;
    hide StartOwner, OwnerQuiet, OwnerSize, FieldsQuiet, Position;
    FieldsRememberNothingIff(s.w, r.fields);
  }

  /** After a rollback the writer is right again exactly when the record remembered no name, and that can be
      told before it is written. */
  lemma {:induction false} RollbackKeepsIff(w: Writer, a: Ask, rs: seq<Record>, r: Record)
    requires Between(w, a, rs) && WellFormed(r) && |w.content| < 0x1_0000
    ensures var o := WriteRecord(w, r);
            && o.ok && (Between(Rollback(o.w), a, rs) <==> o.w.labels == w.labels)
            && (Between(Rollback(o.w), a, rs) <==> RemembersNothing(w, r))
  {
    RolledBack(w, r);
    RecordRemembersNothingIff(w, r);
    var v := Rollback(WriteRecord(w, r).w);
    hide WriteRecord, WellFormed, Settled, Behind, RemembersNothing;
    if Between(v, a, rs) {
      BehindIsWrong(Base(v.content), v.labels, |w.labels|);
    }
  }

  // ---- Packets with rollbacks -----------------------------------------------------------------

  /** A record that is written and stays, or one that is written and rolled back. */
  datatype Act = Keep(s: Step) | Undo(r: Record)

  function Do(w: Writer, act: Act): Outcome {
    match act
    case Keep(s) => WriteStep(w, s)
    case Undo(r) =>
      var o := WriteRecord(w, r);
      if o.ok then Outcome(true, Rollback(o.w)) else o
  }

  function DoAll(w: Writer, acts: seq<Act>): Outcome
    decreases |acts|
  {
    if acts == [] then Outcome(true, w)
    else
      var o := Do(w, acts[0]);
      if o.ok then DoAll(o.w, acts[1..]) else o
  }

  /** The records kept; starting the one that is undone commits the one before. */
  function Kept(done: seq<Step>, acts: seq<Act>): seq<Step>
    decreases |acts|
  {
    if acts == [] then done else Kept(Then(done, acts[0]), acts[1..])
  }

  function Then(done: seq<Step>, act: Act): seq<Step> {
    match act
    case Keep(s) => done + [s]
    case Undo(_) => if OpenAtEnd(done) then Init(done) + [Last(done).(commit := true)] else done
  }

  /** The acts can be done: no record without data is left open, everything fits, and nothing is
      remembered of what is undone. */
  predicate Clean(w: Writer, done: seq<Step>, acts: seq<Act>)
    decreases |acts|
  {
    acts == [] || (
      && (OpenAtEnd(done) ==> HasData(Last(done).r.fields))
      && CleanAct(w, acts[0])
      && Clean(Do(w, acts[0]).w, Then(done, acts[0]), acts[1..]))
  }

  predicate CleanAct(w: Writer, act: Act) {
    match act
    case Keep(s) => WellFormed(s.r) && Mass(WriteStep(w, s).w) < 0x1_0000
    case Undo(r) => WellFormed(r) && Mass(WriteRecord(w, r).w) < 0x1_0000 && WriteRecord(w, r).w.labels == w.labels
  }

  lemma UndoOk(w: Writer, a: Ask, done: seq<Step>, r: Record)
    requires After(w, a, done) && (OpenAtEnd(done) ==> HasData(Last(done).r.fields)) && CleanAct(w, Undo(r))
    ensures var o := Do(w, Undo(r)); o.ok && After(o.w, a, Then(done, Undo(r)))
  {
    var v := if w.record == [] then w else Commit(w).w;
    RecordGrows(w, r);
    Settles(w, a, done);
    hide After, InRecord, Commit, HasData, WellFormed, StartOwner, WriteFields, Between, RecordsOf;
    assert StartRecord(w, HeadOf(r)) == StartOwner(v, HeadOf(r));
    BetweenIsEmpty(v, a, RecordsOf(done));
    assert WriteRecord(w, r) == WriteRecord(v, r);
    CommitKeepsLabels(w);
    RollbackKeepsIff(v, a, RecordsOf(done), r);
    ThenAfter(Rollback(WriteRecord(v, r).w), a, done, r);
  }

  lemma RecordGrows(w: Writer, r: Record)
    ensures Mass(w) <= Mass(Commit(w).w)
    ensures Mass(w) <= Mass(WriteRecord(w, r).w)
    ensures w.record != [] && Commit(w).ok ==> Mass(Commit(w).w) <= Mass(WriteRecord(w, r).w)
  {
    CommitGrows(w);
    StepGrows(w, Step(r, false));
    StartGrows(w, HeadOf(r));
    OwnerGrows(if w.record == [] then w else Commit(w).w, HeadOf(r));
    hide StartOwner, WriteFields, Commit;
  }

  lemma CommitKeepsLabels(w: Writer)
    ensures Commit(w).w.labels == w.labels && Commit(w).w.canonic == w.canonic
  {
  }

  lemma ThenAfter(w: Writer, a: Ask, done: seq<Step>, r: Record)
    requires Between(w, a, RecordsOf(done))
    ensures After(w, a, Then(done, Undo(r)))
  {
    assert RecordsOf(Then(done, Undo(r))) == RecordsOf(done);
  }

  lemma {:induction false} DoAllOk(w: Writer, a: Ask, done: seq<Step>, acts: seq<Act>)
    requires After(w, a, done) && Clean(w, done, acts) && ValidName(a.name)
    ensures var o := DoAll(w, acts); o.ok && After(o.w, a, Kept(done, acts))
    decreases |acts|
  {
    hide After, WellFormed, HasData, WriteStep, WriteRecord, Mass;
    if acts != [] {
      var o := Do(w, acts[0]);
      if acts[0].Keep? {
        StepOk(w, a, done, acts[0].s);
      } else {
        UndoOk(w, a, done, acts[0].r);
      }
      DoAllOk(o.w, a, Then(done, acts[0]), acts[1..]);
    }
  }

  /** Records kept and records rolled back, in any order, closed by a last commit: as long as the records
      rolled back remember no name, the packet parses to the records kept as if the others had never been. */
  lemma {:induction false} RoundTripWithRollbacks(w: Writer, a: Ask, acts: seq<Act>)
    requires Printable(a, RecordsOf(Kept([], acts)))
    requires var o := NewPacket(w, Text(a.name), a.qtype, a.qclass, a.opcode);
             Clean(o.w, [], acts) && Mass(DoAll(o.w, acts).w) + RECORD_HEADER < 0x1_0000
    ensures var f := DoAll(NewPacket(w, Text(a.name), a.qtype, a.qclass, a.opcode).w, acts);
            var steps := Kept([], acts);
            && f.ok
            && if OpenAtEnd(steps) then Commit(f.w).ok && ComesBack(Commit(f.w).w.content, a, RecordsOf(steps))
               else ComesBack(f.w.content, a, RecordsOf(steps))
  {
    OpenOk(w, a);
    var o := NewPacket(w, Text(a.name), a.qtype, a.qclass, a.opcode);
    assert After(o.w, a, []) by { assert RecordsOf([]) == []; }
    hide ComesBack, Printable, After, DoAll, Clean, Kept, NewPacket;
    AskIsValid(a, RecordsOf(Kept([], acts)));
    DoAllOk(o.w, a, [], acts);
    Closed(DoAll(o.w, acts).w, a, Kept([], acts));
  }

  lemma AskIsValid(a: Ask, rs: seq<Record>)
    requires Printable(a, rs)
    ensures ValidName(a.name)
  {
  }
}
