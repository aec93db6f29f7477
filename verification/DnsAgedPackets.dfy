/** Ageing against writing and parsing: an aged packet is the packet that would have been written with
    lower TTLs, and so it parses to the same records with lower TTLs. */
module DnsAgedPackets {
  import opened Octets
  import opened DnsNames
  import opened DnsWire
  import opened DnsWriter
  import opened DnsCompression
  import opened DnsRecords
  import opened DnsReadBack
  import opened DnsPacket
  import opened DnsRoundTrip
  import opened DnsLimits
  import opened DnsRollback
  import opened DnsAgeing
  import opened Wrappers

  // ---- The walk over a record section ---------------------------------------------------------

  /** The walk skips an encoded name to its end. */
  lemma {:induction false} NameLengthIs(p: Bytes, pos: nat, n: Name)
    requires NameAt(p, pos, n)
    ensures pos <= |p| && NameLength(p[pos..]) == Some(NameEnd(p, pos, n) - pos)
    decreases |n|
  {
    assert LiteralAt(p, pos, n) || PointerAt(p, pos);
    var t := p[pos..];
    assert t[0] == p[pos];
    if LiteralAt(p, pos, n) && n != [] {
      var next := pos + 1 + |n[0]|;
      NameLengthIs(p, next, n[1..]);
      assert t[1 + t[0]..] == p[next..];
    }
  }

  lemma OwnerLengthIs(p: Bytes, pos: nat, n: Name)
    requires OwnerAt(p, pos, n)
    ensures pos <= |p| && NameLength(p[pos..]) == Some(OwnerEnd(p, pos, n) - pos)
  {
    if NameAt(p, pos, n) {
      NameLengthIs(p, pos, n);
    } else {
      assert p[pos..][0] == p[pos];
    }
  }

  predicate IsOpt(t: Bytes) {
    var l := NameLength(t);
    l.Some? && |t| >= l.value + 8 && FromBe16(t[l.value..l.value + 2]) == OPT
  }

  /** n records without an OPT record among them, and nothing behind them. */
  predicate Exact(t: Bytes, n: nat) {
    if n == 0 then t == []
    else Advances(t) && Exact(t[NextAt(t, TtlAt(t).value).value..], n - 1)
  }

  /** There is an OPT record among the first n. */
  predicate Stops(t: Bytes, n: nat) {
    n > 0 && (IsOpt(t) || (Advances(t) && Stops(t[NextAt(t, TtlAt(t).value).value..], n - 1)))
  }

  /** The fixed part of a record is behind its owner, and its length leads to its end. */
  lemma {:induction false} RecordParts(p: Bytes, pos: nat, r: Record) returns (e: nat, clen: Word16)
    requires RecordAt(p, pos, r)
    ensures e == OwnerEnd(p, pos, r.owner) && pos < e && e + RECORD_HEADER + clen == RecordEnd(p, pos, r) <= |p|
    ensures p[e..e + RECORD_HEADER] == RecordHeader(HeadOf(r), clen)
    ensures NameLength(p[pos..]) == Some(e - pos)
  {
    hide OwnerAt, OwnerEnd, BodyAt, FieldsAt, FieldsEnd, RecordHeader, NameLength;
    OwnerLengthIs(p, pos, r.owner);
    e := OwnerEnd(p, pos, r.owner);
    clen := BodyParts(p, e, r);
  }

  lemma {:induction false} BodyParts(p: Bytes, e: nat, r: Record) returns (clen: Word16)
    requires BodyAt(p, e, r)
    ensures FieldsAt(p, e + RECORD_HEADER, r.fields) && e + RECORD_HEADER + clen == FieldsEnd(p, e + RECORD_HEADER, r.fields) <= |p|
    ensures p[e..e + RECORD_HEADER] == RecordHeader(HeadOf(r), clen)
  {
    hide FieldsAt, FieldsEnd, RecordHeader;
    clen := BodyLength(p, e, r);
  }

  lemma {:induction false} WalkOne(t: Bytes, l: nat, h: Head, clen: Word16)
    requires NameLength(t) == Some(l) && l + RECORD_HEADER + clen <= |t|
    requires t[l..l + RECORD_HEADER] == RecordHeader(h, clen)
    ensures if h.rtype == OPT then IsOpt(t)
            else TtlAt(t) == Some(l + 4) && NextAt(t, l + 4) == Some(l + RECORD_HEADER + clen)
  {
    HeaderReads(h, clen);
    hide NameLength, RecordHeader;
    SubSlice(t, l, l + RECORD_HEADER, 0, 2);
    SubSlice(t, l, l + RECORD_HEADER, 8, 10);
    assert t[l + 4 + 4..l + 4 + 6] == t[l + 8..l + 10];
  }

  /** The walk over one record: it stops at an OPT record, and goes on behind any other one. */
  lemma {:induction false} RecordWalk(p: Bytes, pos: nat, r: Record)
    requires RecordAt(p, pos, r)
    ensures pos <= |p|
    ensures var t := p[pos..];
            if r.rtype == OPT then IsOpt(t)
            else TtlAt(t) == Some(OwnerEnd(p, pos, r.owner) - pos + 4)
                 && NextAt(t, TtlAt(t).value) == Some(RecordEnd(p, pos, r) - pos)
  {
    hide RecordAt, OwnerEnd, RecordEnd, RecordHeader, NameLength, TtlAt, NextAt, IsOpt;
    var e, clen := RecordParts(p, pos, r);
    assert p[pos..][e - pos..e - pos + RECORD_HEADER] == p[e..e + RECORD_HEADER];
    WalkOne(p[pos..], e - pos, HeadOf(r), clen);
  }

  predicate HasOpt(rs: seq<Record>) {
    rs != [] && (rs[|rs| - 1].rtype == OPT || HasOpt(rs[..|rs| - 1]))
  }

  lemma {:induction false} HasOptCons(rs: seq<Record>)
    requires rs != []
    ensures HasOpt(rs) <==> rs[0].rtype == OPT || HasOpt(rs[1..])
  {
    if |rs| > 1 {
      HasOptCons(rs[..|rs| - 1]);
      assert rs[..|rs| - 1][1..] == rs[1..][..|rs| - 2];
    }
  }

  lemma {:induction false} WalkRecords(p: Bytes, pos: nat, rs: seq<Record>)
    requires RecordsAt(p, pos, rs) && RecordsEnd(p, pos, rs) == |p|
    ensures pos <= |p| && (if HasOpt(rs) then Stops(p[pos..], |rs|) else Exact(p[pos..], |rs|))
    decreases |rs|
  {
    hide RecordAt, RecordEnd, TtlAt, NextAt, IsOpt, HasOpt;
    if rs == [] {
      NoOpt();
    } else {
      RecordWalk(p, pos, rs[0]);
      HasOptCons(rs);
      if rs[0].rtype != OPT {
        var next := RecordEnd(p, pos, rs[0]);
        WalkRecords(p, next, rs[1..]);
        assert p[pos..][next - pos..] == p[next..];
      }
    }
  }

  lemma NoOpt()
    ensures !HasOpt([])
  {
  }

  lemma {:induction false} WalkLocal(t: Bytes, u: Bytes)
    ensures Advances(t) ==> TtlAt(t + u) == TtlAt(t) && NextAt(t + u, TtlAt(t).value) == NextAt(t, TtlAt(t).value)
    ensures IsOpt(t) ==> IsOpt(t + u)
  {
    var l := NameLength(t);
    if l.Some? {
      assert (t + u)[..l.value] == t[..l.value];
      NameLengthLocal(t, t + u, l.value);
      hide NameLength;
      if |t| >= l.value + 8 {
        assert (t + u)[l.value..l.value + 2] == t[l.value..l.value + 2];
        if |t| >= l.value + 10 {
          assert (t + u)[l.value + 8..l.value + 10] == t[l.value + 8..l.value + 10];
        }
      }
    }
  }

  function NextOf(t: Bytes): nat
    requires Advances(t)
    ensures NextOf(t) <= |t|
  {
    NextAt(t, TtlAt(t).value).value
  }

  lemma {:induction false} WalkUnfolds(t: Bytes, n: nat)
    requires n > 0
    ensures Exact(t, n) ==> Advances(t) && Exact(t[NextOf(t)..], n - 1)
    ensures Stops(t, n) && !IsOpt(t) ==> Advances(t) && Stops(t[NextOf(t)..], n - 1)
  {
    hide TtlAt, NextAt, IsOpt;
  }

  /** With or without something behind it the first record is aged in the same way. */
  lemma {:induction false} AppendedAdvances(t: Bytes, u: Bytes, n: nat, total: nat, s: int) returns (front: Bytes)
    requires n > 0 && total > 0 && Advances(t)
    ensures AgeRecords(t, n, s) == front + AgeRecords(t[NextOf(t)..], n - 1, s)
    ensures AgeRecords(t + u, total, s) == front + AgeRecords(t[NextOf(t)..] + u, total - 1, s)
  {
    WalkLocal(t, u);
    hide TtlAt, NextAt, Aged;
    var ttl, next := TtlAt(t).value, NextOf(t);
    AgeFirst(t, n, s, ttl, next);
    AgeFirst(t + u, total, s, ttl, next);
    hide AgeRecords;
    SameFront(t, u, s, ttl, next);
    assert (t + u)[next..] == t[next..] + u;
    front := t[..ttl] + Aged(t[ttl..ttl + 4], s) + t[ttl + 4..next];
  }

  lemma {:induction false} AppendedToNone(t: Bytes, u: Bytes, k: nat, s: int)
    requires Exact(t, 0)
    ensures AgeRecords(t + u, k, s) == AgeRecords(t, 0, s) + AgeRecords(u, k, s) && !Stops(t, 0)
  {
    AgeNothing(t, 0, s);
    hide AgeRecords;
    assert t == [] && t + u == u;
  }

  lemma {:induction false} AppendedToOpt(t: Bytes, u: Bytes, n: nat, total: nat, s: int)
    requires IsOpt(t) && n > 0
    ensures AgeRecords(t + u, total, s) == AgeRecords(t, n, s) + u && Stops(t, n)
  {
    WalkLocal(t, u);
    OptHasNoTtl(t);
    OptHasNoTtl(t + u);
    hide IsOpt, TtlAt, AgeRecords;
    AgeNothing(t, n, s);
    AgeNothing(t + u, total, s);
  }

  lemma {:induction false} AppendedStep(t: Bytes, u: Bytes, n: nat, total: nat, tail: Bytes, s: int)
    requires n > 0 && total > 0 && Advances(t)
    requires AgeRecords(t[NextOf(t)..] + u, total - 1, s) == AgeRecords(t[NextOf(t)..], n - 1, s) + tail
    ensures AgeRecords(t + u, total, s) == AgeRecords(t, n, s) + tail
  {
    hide AgeRecords, Advances, NextOf;
    var front := AppendedAdvances(t, u, n, total, s);
    var rest := AgeRecords(t[NextOf(t)..], n - 1, s);
    assert front + (rest + tail) == front + rest + tail;
  }

  /** What is appended to whole records is aged after them, unless there is an OPT record among them. */
  lemma {:induction false} AgeAppended(t: Bytes, u: Bytes, n: nat, k: nat, total: nat, s: int)
    requires total == n + k && (Exact(t, n) || Stops(t, n))
    ensures AgeRecords(t + u, total, s) == AgeRecords(t, n, s) + (if Stops(t, n) then u else AgeRecords(u, k, s))
    decreases n
  {
    hide Exact, Stops, IsOpt, Advances, AgeRecords, NextOf;
    if n == 0 {
      NothingStops(t);
      AppendedToNone(t, u, k, s);
    } else if IsOpt(t) {
      AppendedToOpt(t, u, n, total, s);
    } else {
      WalkUnfolds(t, n);
      StopsUnfolds(t, n);
      AgeAppended(t[NextOf(t)..], u, n - 1, k, total - 1, s);
      AppendedStep(t, u, n, total, if Stops(t, n) then u else AgeRecords(u, k, s), s);
    }
  }

  lemma {:induction false} NothingStops(t: Bytes)
    ensures !Stops(t, 0)
  {
  }

  lemma {:induction false} StopsUnfolds(t: Bytes, n: nat)
    requires n > 0 && !IsOpt(t) && Advances(t)
    ensures Stops(t, n) <==> Stops(t[NextOf(t)..], n - 1)
  {
    hide TtlAt, NextAt, IsOpt;
  }

  lemma OptHasNoTtl(t: Bytes)
    ensures IsOpt(t) ==> TtlAt(t) == None
  {
  }

  lemma {:induction false} AgeFirst(t: Bytes, n: nat, s: int, ttl: nat, next: nat)
    requires n > 0 && TtlAt(t) == Some(ttl) && NextAt(t, ttl) == Some(next)
    ensures AgeRecords(t, n, s) == t[..ttl] + Aged(t[ttl..ttl + 4], s) + t[ttl + 4..next] + AgeRecords(t[next..], n - 1, s)
  {
  }

  lemma SameFront(t: Bytes, u: Bytes, s: int, ttl: nat, next: nat)
    requires ttl + 4 <= next <= |t|
    ensures (t + u)[..ttl] + Aged((t + u)[ttl..ttl + 4], s) + (t + u)[ttl + 4..next]
         == t[..ttl] + Aged(t[ttl..ttl + 4], s) + t[ttl + 4..next]
  {
    assert (t + u)[..ttl] == t[..ttl] && (t + u)[ttl..ttl + 4] == t[ttl..ttl + 4] && (t + u)[ttl + 4..next] == t[ttl + 4..next];
  }

  // ---- A settled packet, aged -----------------------------------------------------------------

  lemma {:induction false} QuestionWalk(p: Bytes, a: Ask)
    requires QuestionAt(p, a) && |p| >= HEADER
    ensures HEADER <= QuestionEnd(p, a) <= |p| && QuestionsLength(p[HEADER..], 1) == Some(QuestionEnd(p, a) - HEADER)
  {
    NameLengthIs(p, HEADER, a.name);
    var l := NameEnd(p, HEADER, a.name) - HEADER;
    assert QuestionsLength(p[HEADER..][l + 4..], 0) == Some(0);
  }

  /** Behind the question the walk is over exactly the records. */
  lemma {:induction false} AgeSettled(c: Bytes, a: Ask, rs: seq<Record>, s: int)
    requires Settled(c, a, rs) && |c| < 0x1_0000
    ensures QuestionAt(c, a)
    ensures var q := QuestionEnd(c, a);
            && HEADER <= q <= |c| && Age(c, s) == c[..q] + AgeRecords(c[q..], |rs|, s)
            && (if HasOpt(rs) then Stops(c[q..], |rs|) else Exact(c[q..], |rs|))
  {
    BaseFills(c);
    HoldsRefines(Base(c), c, a, rs);
    RecordsFit(c, a, rs);
    HeaderParses(c, a, rs);
    TallyTotal(rs);
    assert QuestionCount(c) == 1 && RecordCount(c) == |rs|;
    hide QuestionAt, RecordsAt, HeaderSays, QuestionCount, RecordCount, AgeRecords, QuestionsLength, Exact, Stops, HasOpt;
    QuestionWalk(c, a);
    WalkRecords(c, QuestionEnd(c, a), rs);
  }

  // ---- Commit, aged ---------------------------------------------------------------------------

  /** The TTL a record is left with: nothing from the first OPT record on is aged. */
  function TtlAfter(rs: seq<Record>, r: Record, s: int): Word32 {
    if HasOpt(rs) || r.rtype == OPT then r.ttl else (r.ttl - s) % 0x1_0000_0000
  }

  lemma BumpSplits(h: Bytes, t: Bytes, p: Place)
    requires |h| == HEADER
    ensures BumpCount(h + t, p) == BumpCount(h, p) + t
  {
  }

  lemma {:induction false} AgeOneRecord(u: Bytes, owner: Bytes, h: Head, clen: Word16, data: Bytes, s: int)
    requires u == owner + RecordHeader(h, clen) + data && |data| == clen && NameLength(u) == Some(|owner|)
    ensures AgeRecords(u, 1, s) == owner + RecordHeader(if h.rtype == OPT then h else h.(ttl := (h.ttl - s) % 0x1_0000_0000), clen) + data
  {
    var l := |owner|;
    assert u[l..l + RECORD_HEADER] == RecordHeader(h, clen);
    WalkOne(u, l, h, clen);
    if h.rtype == OPT {
      OptHasNoTtl(u);
      AgeNothing(u, 1, s);
    } else {
      hide AgeRecords, NameLength, TtlAt;
      AgeSingle(u, s);
      TtlReplaced(u, owner, h, clen, data, s);
    }
  }

  lemma TtlReplaced(u: Bytes, owner: Bytes, h: Head, clen: Word16, data: Bytes, s: int)
    requires u == owner + RecordHeader(h, clen) + data
    ensures u[..|owner| + 4] + Aged(u[|owner| + 4..|owner| + 8], s) + u[|owner| + 8..]
         == owner + RecordHeader(h.(ttl := (h.ttl - s) % 0x1_0000_0000), clen) + data
  {
    var k, ttl := Be16(h.rtype) + Be16(h.rclass), (h.ttl - s) % 0x1_0000_0000;
    AgedTtl(h.ttl, s);
    assert RecordHeader(h, clen) == k + Be32(h.ttl) + Be16(clen);
    assert RecordHeader(h.(ttl := ttl), clen) == k + Be32(ttl) + Be16(clen);
    hide RecordHeader, Be32, Be16, Aged;
    MiddleReplaced(owner, k, Be32(h.ttl), Be32(ttl), Be16(clen), data);
    assert u == owner + (k + Be32(h.ttl) + Be16(clen)) + data;
  }

  lemma AgedTtl(ttl: Word32, s: int)
    ensures Aged(Be32(ttl), s) == Be32((ttl - s) % 0x1_0000_0000)
  {
    hide Be32, FromBe32;
    Be32RoundTrip(ttl);
    Be32Mod(ttl - s);
  }

  lemma MiddleReplaced(owner: Bytes, k: Bytes, x: Bytes, y: Bytes, z: Bytes, data: Bytes)
    requires |k| == |x| == |y| == 4
    ensures var u := owner + (k + x + z) + data;
            u[|owner| + 4..|owner| + 8] == x && u[..|owner| + 4] + y + u[|owner| + 8..] == owner + (k + y + z) + data
  {
    var u := owner + (k + x + z) + data;
    assert u[..|owner| + 4] == owner + k && u[|owner| + 8..] == z + data;
  }

  lemma Be32Mod(v: int)
    ensures Be32(v % 0x1_0000_0000) == Be32(v)
  {
    Be32Periodic(v, 0 - v / 0x1_0000_0000);
  }

  /** The octets a record adds to the packet behind its marker. */
  function Added(w: Writer, h: Head): Bytes
    requires w.marker <= |w.content|
  {
    w.content[w.marker..] + RecordHeader(h, |w.record| % 0x1_0000) + w.record
  }

  lemma OwnerStays(w: Writer, a: Ask, rs: seq<Record>, r: Record, fs: seq<Field>, c: Bytes)
    requires InRecord(w, a, rs, r, fs) && w.content <= c
    ensures NameLength(c[w.marker..]) == Some(|w.content| - w.marker)
  {
    hide Settled, OwnerAt, OwnerEnd, FieldsAt, FieldsEnd, MapOk, NameLength;
    BasePrefix(w.content, c);
    OwnerRefines(Base(w.content), c, w.marker, r.owner);
    OwnerLengthIs(c, w.marker, r.owner);
  }

  lemma BasePrefix(b: Bytes, c: Bytes)
    requires HEADER <= |b| && b <= c
    ensures Refines(Base(b), c)
  {
  }

  lemma OpenFacts(w: Writer, a: Ask, rs: seq<Record>, r: Record, fs: seq<Field>)
    requires InRecord(w, a, rs, r, fs)
    ensures HEADER <= w.marker <= |w.content| && Settled(w.content[..w.marker], a, rs)
    ensures w.stuff == RECORD_HEADER && w.head == HeadOf(r)
  {
  }

  lemma {:induction false} CommittedIs(w: Writer, a: Ask, rs: seq<Record>, r: Record)
    requires InRecord(w, a, rs, r, r.fields) && |w.record| < 0x1_0000
    ensures w.marker <= |w.content| && Commit(w).ok
    ensures Commit(w).w.content == BumpCount(w.content[..w.marker] + Added(w, w.head), r.place)
    ensures NameLength(Added(w, w.head)) == Some(|w.content| - w.marker)
  {
    hide InRecord, Settled, RecordHeader, BumpCount, NameLength;
    OpenFacts(w, a, rs, r, r.fields);
    var c := w.content + RecordHeader(w.head, |w.record|) + w.record;
    OwnerStays(w, a, rs, r, r.fields, c);
    assert c[w.marker..] == Added(w, w.head);
    assert c == w.content[..w.marker] + Added(w, w.head);
  }

  /** Ageing the packet with one more record is committing that record, with its TTL aged, to the aged packet. */
  lemma {:induction false} AgeCommitted(w: Writer, a: Ask, rs: seq<Record>, r: Record, s: int)
    requires InRecord(w, a, rs, r, r.fields) && Mass(w) + RECORD_HEADER < 0x1_0000
    ensures w.marker <= |w.content|
    ensures Age(Commit(w).w.content, s)
         == BumpCount(Age(w.content[..w.marker], s) + Added(w, w.head.(ttl := TtlAfter(rs, r, s))), r.place)
  {
    hide InRecord, Settled, Age, AgeRecords, BumpCount, Commit, HasOpt, NameLength, RecordHeader;
    OpenFacts(w, a, rs, r, r.fields);
    CommitOk(w, a, rs, r);
    CommittedIs(w, a, rs, r);
    var c0, u, h := w.content[..w.marker], Added(w, w.head), w.head;
    var u' := Added(w, h.(ttl := TtlAfter(rs, r, s)));
    AgeOneRecord(u, w.content[w.marker..], h, |w.record|, w.record, s);
    assert h.(ttl := h.ttl) == h && h.rtype == r.rtype && h.ttl == r.ttl;
    AgeMore(c0, a, rs, r, u, u', BumpCount(c0 + u, r.place), s);
  }

  lemma {:induction false} AgeMore(c0: Bytes, a: Ask, rs: seq<Record>, r: Record, u: Bytes, u': Bytes, c1: Bytes, s: int)
    requires c1 == BumpCount(c0 + u, r.place) && |c1| < 0x1_0000
    requires Settled(c0, a, rs) && Settled(c1, a, rs + [r])
    requires u' == if HasOpt(rs) then u else AgeRecords(u, 1, s)
    ensures Age(c1, s) == BumpCount(Age(c0, s) + u', r.place)
  {
    hide Settled, Age, AgeRecords, BumpCount, QuestionAt, QuestionEnd, Exact, Stops, HasOpt;
    AgeSettled(c0, a, rs, s);
    AgeSettled(c1, a, rs + [r], s);
    var q, n := QuestionEnd(c0, a), |rs|;
    BumpedTail(c0, u, r.place, q);
    SameQuestion(c0, c1, a);
    if Exact(c0[q..], n) { ExactDoesNotStop(c0[q..], n); }
    AgeAppended(c0[q..], u, n, 1, n + 1, s);
    BumpJoins(c0, c1, q, u, u', AgeRecords(c0[q..], n, s), r.place);
  }

  lemma BumpedTail(c0: Bytes, u: Bytes, p: Place, q: nat)
    requires HEADER <= q <= |c0|
    ensures BumpCount(c0 + u, p)[q..] == c0[q..] + u
    ensures BumpCount(c0 + u, p)[HEADER..|c0|] == c0[HEADER..]
  {
    BumpKeepsRest(c0 + u, p);
    hide BumpCount;
    var c1 := BumpCount(c0 + u, p);
    assert c1[q..] == c1[HEADER..][q - HEADER..] == (c0 + u)[HEADER..][q - HEADER..] == (c0 + u)[q..] == c0[q..] + u;
    assert c1[HEADER..|c0|] == c1[HEADER..][..|c0| - HEADER] == (c0 + u)[HEADER..][..|c0| - HEADER];
  }

  lemma {:induction false} ExactDoesNotStop(t: Bytes, n: nat)
    requires Exact(t, n)
    ensures !Stops(t, n)
    decreases n
  {
    if n > 0 {
      OptHasNoTtl(t);
      hide TtlAt, NextAt, IsOpt;
      ExactDoesNotStop(t[NextOf(t)..], n - 1);
    }
  }

  lemma SameQuestion(c0: Bytes, c1: Bytes, a: Ask)
    requires QuestionAt(c0, a) && QuestionAt(c1, a) && HEADER <= |c0| <= |c1| && c1[HEADER..|c0|] == c0[HEADER..]
    ensures QuestionEnd(c1, a) == QuestionEnd(c0, a)
  {
    BaseFills(c0);
    BaseFills(c1);
    QuestionWalk(c0, a);
    QuestionWalk(c1, a);
    var l := QuestionEnd(c0, a) - HEADER;
    assert c1[HEADER..][..l] == c0[HEADER..][..l] by { assert c1[HEADER..|c0|][..l] == c1[HEADER..][..l]; }
    QuestionsLocal(c0[HEADER..], c1[HEADER..], 1, l);
  }

  lemma BumpJoins(c0: Bytes, c1: Bytes, q: nat, u: Bytes, u': Bytes, aged: Bytes, p: Place)
    requires HEADER <= q <= |c0| && c1 == BumpCount(c0 + u, p)
    ensures |c1| >= q && c1[..q] + (aged + u') == BumpCount(c0[..q] + aged + u', p)
  {
    var h := c0[..HEADER];
    BumpSplits(h, c0[HEADER..] + u, p);
    BumpSplits(h, c0[HEADER..q] + aged + u', p);
    assert c0 + u == h + (c0[HEADER..] + u);
    assert c0[..q] + aged + u' == h + (c0[HEADER..q] + aged + u');
    hide BumpCount;
    assert c1[..q] == BumpCount(h, p) + c0[HEADER..q];
  }

  // ---- Writing with lower TTLs ----------------------------------------------------------------

  /** The same steps with every TTL before the first OPT record lower by s modulo 2^32; seen says that
      there was one already. */
  function AgedSteps(steps: seq<Step>, seen: bool, s: int): (r: seq<Step>)
    ensures |r| == |steps|
  {
    if steps == [] then []
    else
      var now := seen || steps[0].r.rtype == OPT;
      [AgedStep(steps[0], now, s)] + AgedSteps(steps[1..], now, s)
  }

  function AgedStep(step: Step, keep: bool, s: int): Step {
    if keep then step else step.(r := step.r.(ttl := (step.r.ttl - s) % 0x1_0000_0000))
  }

  function AgedRecords(rs: seq<Record>, seen: bool, s: int): (r: seq<Record>)
    ensures |r| == |rs|
  {
    if rs == [] then []
    else
      var now := seen || rs[0].rtype == OPT;
      [if now then rs[0] else rs[0].(ttl := (rs[0].ttl - s) % 0x1_0000_0000)] + AgedRecords(rs[1..], now, s)
  }

  lemma {:induction false} RecordsOfAged(steps: seq<Step>, seen: bool, s: int)
    ensures RecordsOf(AgedSteps(steps, seen, s)) == AgedRecords(RecordsOf(steps), seen, s)
  {
    if steps != [] {
      var now := seen || steps[0].r.rtype == OPT;
      RecordsOfAged(steps[1..], now, s);
      RecordsCons(steps[0], steps[1..]);
      RecordsCons(AgedStep(steps[0], now, s), AgedSteps(steps[1..], now, s));
      hide RecordsOf;
      assert steps == [steps[0]] + steps[1..];
      assert RecordsOf(steps)[1..] == RecordsOf(steps[1..]) && RecordsOf(steps)[0] == steps[0].r;
    }
  }

  lemma {:induction false} RecordsCons(step: Step, steps: seq<Step>)
    ensures RecordsOf([step] + steps) == [step.r] + RecordsOf(steps)
  {
  }

  /** The writer with another content of the same length and another TTL in its head. */
  function With(w: Writer, content: Bytes, ttl: Word32): Writer {
    w.(content := content, head := w.head.(ttl := ttl))
  }

  lemma FieldIgnoresContent(w: Writer, f: Field, content: Bytes, ttl: Word32)
    requires |content| == |w.content|
    ensures var o := WriteField(w, f); WriteField(With(w, content, ttl), f) == Outcome(o.ok, With(o.w, content, ttl))
    ensures |WriteField(w, f).w.content| == |w.content|
  {
    hide Tokenize, EmitPieces, Pieces;
  }

  lemma {:induction false} FieldsIgnoreContent(w: Writer, fs: seq<Field>, content: Bytes, ttl: Word32)
    requires |content| == |w.content|
    ensures var o := WriteFields(w, fs); WriteFields(With(w, content, ttl), fs) == Outcome(o.ok, With(o.w, content, ttl))
    decreases |fs|
  {
    hide WriteField, With;
    if fs != [] {
      FieldIgnoresContent(w, fs[0], content, ttl);
      if WriteField(w, fs[0]).ok { FieldsIgnoreContent(WriteField(w, fs[0]).w, fs[1..], content, ttl); }
    }
  }

  /** The label written does not depend on the content, only on its length. */
  lemma LabelIgnoresContent(w: Writer, text: Bytes, compress: bool, content: Bytes, ttl: Word32)
    requires |content| == |w.content|
    ensures LabelOf(With(w, content, ttl), text, compress) == LabelOf(w, text, compress)
  {
  }

  /** The owner is appended to whatever content there is. */
  lemma OwnerIgnoresContent(w: Writer, h: Head, content: Bytes, ttl: Word32, before: Word32)
    requires |content| == |w.content| < 0x1_0000 && w.record == []
    ensures var o, p := StartOwner(w, h), StartOwner(With(w, content, before), h.(ttl := ttl));
            o.ok ==> p.ok && w.content <= o.w.content && o.w.marker == |w.content| && o.w.head == h
                     && p.w == With(o.w, content + o.w.content[|w.content|..], ttl)
  {
    hide LabelOf;
    var v := w.(head := h, stuff := 0, marker := |w.content|);
    assert With(w, content, before).(head := h.(ttl := ttl), stuff := 0, marker := |w.content|) == With(v, content, ttl);
    LabelIgnoresContent(v, h.name, true, content, ttl);
  }

  /** A writer between two records, and the one that wrote the same records with lower TTLs. */
  ghost predicate TwinSettled(w: Writer, w': Writer, s: int) {
    w' == With(w, Age(w.content, s), w'.head.ttl)
  }

  /** The same with record r open. */
  ghost predicate TwinOpen(w: Writer, w': Writer, rs: seq<Record>, r: Record, s: int) {
    && w.marker <= |w.content| && w.head == HeadOf(r)
    && w' == With(w, Age(w.content[..w.marker], s) + w.content[w.marker..], TtlAfter(rs, r, s))
  }

  ghost predicate Twin(w: Writer, w': Writer, done: seq<Step>, s: int) {
    if OpenAtEnd(done) then TwinOpen(w, w', RecordsOf(Init(done)), Last(done).r, s) else TwinSettled(w, w', s)
  }

  lemma CommitTwin(w: Writer, w': Writer, a: Ask, rs: seq<Record>, r: Record, s: int)
    requires InRecord(w, a, rs, r, r.fields) && TwinOpen(w, w', rs, r, s) && Mass(w) + RECORD_HEADER < 0x1_0000
    ensures Commit(w').ok && TwinSettled(Commit(w).w, Commit(w').w, s)
  {
    hide InRecord, Age, BumpCount, HasOpt, RecordHeader;
    OpenFacts(w, a, rs, r, r.fields);
    AgeCommitted(w, a, rs, r, s);
    var head := w.head.(ttl := TtlAfter(rs, r, s));
    var c, clen := Age(w.content[..w.marker], s), |w.record| % 0x1_0000;
    assert w'.content + RecordHeader(head, clen) + w.record == c + Added(w, head);
  }

  lemma StartTwin(w: Writer, w': Writer, rs: seq<Record>, r: Record, s: int)
    requires TwinSettled(w, w', s) && w.record == [] && |w.content| < 0x1_0000 && StartOwner(w, HeadOf(r)).ok
    ensures var p := StartOwner(w', HeadOf(r).(ttl := TtlAfter(rs, r, s)));
            p.ok && TwinOpen(StartOwner(w, HeadOf(r)).w, p.w, rs, r, s)
  {
    hide StartOwner, Age, HasOpt;
    var o := StartOwner(w, HeadOf(r));
    OwnerIgnoresContent(w, HeadOf(r), Age(w.content, s), TtlAfter(rs, r, s), w'.head.ttl);
    assert o.w.content[..o.w.marker] == w.content;
  }

  lemma {:induction false} FieldsTwin(w: Writer, w': Writer, rs: seq<Record>, r: Record, fs: seq<Field>, s: int)
    requires TwinOpen(w, w', rs, r, s) && WriteFields(w, fs).ok
    requires var o := WriteFields(w, fs); o.w.content == w.content && o.w.marker == w.marker && o.w.head == w.head
    ensures var p := WriteFields(w', fs); p.ok && TwinOpen(WriteFields(w, fs).w, p.w, rs, r, s)
  {
    hide WriteFields, Age, HasOpt;
    FieldsIgnoreContent(w, fs, w'.content, TtlAfter(rs, r, s));
  }

  lemma FieldKeeps(w: Writer, f: Field)
    ensures var v := WriteField(w, f).w; v.content == w.content && v.marker == w.marker && v.head == w.head
  {
    hide LabelOf;
  }

  lemma {:induction false} FieldsKeep(w: Writer, fs: seq<Field>)
    ensures var v := WriteFields(w, fs).w; v.content == w.content && v.marker == w.marker && v.head == w.head
    decreases |fs|
  {
    hide WriteField;
    if fs != [] {
      FieldKeeps(w, fs[0]);
      if WriteField(w, fs[0]).ok { FieldsKeep(WriteField(w, fs[0]).w, fs[1..]); }
    }
  }

  /** A record started and written, its owner and fields alike and its TTL lower. */
  lemma RecordTwin(w: Writer, w': Writer, a: Ask, done: seq<Step>, r: Record, s: int)
    requires After(w, a, done) && Twin(w, w', done, s) && Mass(WriteRecord(w, r).w) + RECORD_HEADER < 0x1_0000
    requires OpenAtEnd(done) ==> HasData(Last(done).r.fields)
    requires ValidName(a.name) && WellFormed(r)
    ensures var o, p := WriteRecord(w, r), WriteRecord(w', r.(ttl := TtlAfter(RecordsOf(done), r, s)));
            o.ok && p.ok && InRecord(o.w, a, RecordsOf(done), r, r.fields) && TwinOpen(o.w, p.w, RecordsOf(done), r, s)
  {
    hide InRecord, Between, WriteFields, Commit, HasData, HasOpt, Age, StartOwner, RecordsOf, TwinOpen, TwinSettled;
    RecordSteps(w, a, done, r);
    var v, v' := if w.record == [] then w else Commit(w).w, if w.record == [] then w' else Commit(w').w;
    var rs := RecordsOf(done);
    TwinRecord(w, w', done, s);
    if OpenAtEnd(done) { CommitTwin(w, w', a, RecordsOf(Init(done)), Last(done).r, s); }
    var h, h' := HeadOf(r), HeadOf(r.(ttl := TtlAfter(rs, r, s)));
    StartTwin(v, v', rs, r, s);
    var o, o' := StartOwner(v, h), StartOwner(v', h');
    FieldsKeep(o.w, r.fields);
    FieldsTwin(o.w, o'.w, rs, r, r.fields, s);
    assert StartRecord(w', h') == o';
  }

  lemma TwinRecord(w: Writer, w': Writer, done: seq<Step>, s: int)
    requires Twin(w, w', done, s)
    ensures w'.record == w.record
  {
  }

  /** What the writer goes through from the end of one record to the end of the next. */
  lemma RecordSteps(w: Writer, a: Ask, done: seq<Step>, r: Record)
    requires After(w, a, done) && Mass(WriteRecord(w, r).w) + RECORD_HEADER < 0x1_0000
    requires OpenAtEnd(done) ==> HasData(Last(done).r.fields)
    requires ValidName(a.name) && WellFormed(r)
    ensures w.record == [] <==> !OpenAtEnd(done)
    ensures OpenAtEnd(done) ==> InRecord(w, a, RecordsOf(Init(done)), Last(done).r, Last(done).r.fields) && Mass(w) + RECORD_HEADER < 0x1_0000
    ensures var v := if w.record == [] then w else Commit(w).w;
            && v.record == [] && |v.content| < 0x1_0000 && Between(v, a, RecordsOf(done))
            && StartRecord(w, HeadOf(r)) == StartOwner(v, HeadOf(r)) && StartOwner(v, HeadOf(r)).ok
    ensures var o := WriteRecord(w, r);
            o.ok && o == WriteFields(StartRecord(w, HeadOf(r)).w, r.fields) && InRecord(o.w, a, RecordsOf(done), r, r.fields)
  {
    hide InRecord, Between, WriteFields, Commit, HasData, StartOwner, RecordsOf, WellFormed;
    var v := if w.record == [] then w else Commit(w).w;
    StepGrows(w, Step(r, false));
    StartGrows(w, HeadOf(r));
    Settles(w, a, done);
    BetweenIsEmpty(v, a, RecordsOf(done));
    OwnerGrows(v, HeadOf(r));
    StartOk(w, a, done, r) by { ValidOwner(r); }
    ValidFields(r);
    WriteFieldsOk(StartRecord(w, HeadOf(r)).w, a, RecordsOf(done), r, [], r.fields);
    assert [] + r.fields == r.fields;
  }

  lemma ValidOwner(r: Record)
    requires WellFormed(r)
    ensures ValidName(r.owner)
  {
  }

  lemma ValidFields(r: Record)
    requires WellFormed(r)
    ensures AllValid(r.fields)
  {
  }

  lemma StepTwin(w: Writer, w': Writer, a: Ask, done: seq<Step>, step: Step, s: int)
    requires After(w, a, done) && Twin(w, w', done, s) && Mass(WriteRecord(w, step.r).w) + RECORD_HEADER < 0x1_0000
    requires OpenAtEnd(done) ==> HasData(Last(done).r.fields)
    requires ValidName(a.name) && WellFormed(step.r)
    ensures var step' := AgedStep(step, HasOpt(RecordsOf(done)) || step.r.rtype == OPT, s);
            WriteStep(w', step').ok && Twin(WriteStep(w, step).w, WriteStep(w', step').w, done + [step], s)
  {
    hide InRecord, WriteRecord, After, HasOpt, TwinOpen, TwinSettled, Commit, WellFormed, HasData;
    RecordTwin(w, w', a, done, step.r, s);
    var o, p := WriteRecord(w, step.r), WriteRecord(w', step.r.(ttl := TtlAfter(RecordsOf(done), step.r, s)));
    assert Init(done + [step]) == done && Last(done + [step]) == step;
    if step.commit {
      CommitTwin(o.w, p.w, a, RecordsOf(done), step.r, s);
    }
  }

  lemma {:induction false} AllTwin(w: Writer, w': Writer, a: Ask, done: seq<Step>, steps: seq<Step>, s: int)
    requires After(w, a, done) && Twin(w, w', done, s) && Mass(WriteAll(w, steps).w) + RECORD_HEADER < 0x1_0000
    requires NothingLost(done + steps)
    requires ValidName(a.name) && forall i :: 0 <= i < |steps| ==> WellFormed(steps[i].r)
    ensures var f := WriteAll(w', AgedSteps(steps, HasOpt(RecordsOf(done)), s));
            f.ok && Twin(WriteAll(w, steps).w, f.w, done + steps, s)
    decreases |steps|
  {
    hide After, WriteStep, WriteRecord, WellFormed, HasData, Twin, HasOpt;
    if steps == [] {
      assert done + steps == done;
    } else {
      var step, seen := steps[0], HasOpt(RecordsOf(done));
      if done != [] {
        assert (done + steps)[|done| - 1] == Last(done);
      }
      StepGrows(w, step);
      if WriteStep(w, step).ok { AllGrow(WriteStep(w, step).w, steps[1..]); }
      StepOk(w, a, done, step);
      StepTwin(w, w', a, done, step, s);
      var next := done + [step];
      assert next + steps[1..] == done + steps;
      SeenNow(done, step);
      var step' := AgedStep(step, seen || step.r.rtype == OPT, s);
      AllTwin(WriteStep(w, step).w, WriteStep(w', step').w, a, next, steps[1..], s);
      AgedCons(steps, seen, s);
    }
  }

  lemma {:induction false} AgedCons(steps: seq<Step>, seen: bool, s: int)
    requires steps != []
    ensures var now, r := seen || steps[0].r.rtype == OPT, AgedSteps(steps, seen, s);
            r[0] == AgedStep(steps[0], now, s) && r[1..] == AgedSteps(steps[1..], now, s)
  {
  }

  lemma {:induction false} SeenNow(done: seq<Step>, step: Step)
    ensures HasOpt(RecordsOf(done + [step])) <==> HasOpt(RecordsOf(done)) || step.r.rtype == OPT
  {
    var rs := RecordsOf(done + [step]);
    assert rs[..|rs| - 1] == RecordsOf(done);
  }

  // ---- Aged packets come back -----------------------------------------------------------------

  /** Nothing about a record but its TTL is changed. */
  lemma {:induction false} AgedPointwise(rs: seq<Record>, seen: bool, s: int, i: nat)
    requires i < |rs|
    ensures var r := AgedRecords(rs, seen, s)[i]; r == rs[i].(ttl := r.ttl)
  {
    if i > 0 { AgedPointwise(rs[1..], seen || rs[0].rtype == OPT, s, i - 1); }
  }

  lemma {:induction false} AgedReadable(rs: seq<Record>, seen: bool, s: int)
    requires AllReadable(rs)
    ensures AllReadable(AgedRecords(rs, seen, s))
  {
    if rs != [] {
      var now := seen || rs[0].rtype == OPT;
      AgedReadable(rs[1..], now, s);
      TtlDoesNotMatter(rs[0], (rs[0].ttl - s) % 0x1_0000_0000);
      hide Readable;
      assert AgedRecords(rs, seen, s)[1..] == AgedRecords(rs[1..], now, s);
    }
  }

  lemma TtlDoesNotMatter(r: Record, ttl: Word32)
    requires Readable(r)
    ensures Readable(r.(ttl := ttl))
  {
  }

  lemma {:induction false} AgedPrintable(a: Ask, rs: seq<Record>, s: int)
    requires Printable(a, rs)
    ensures Printable(a, AgedRecords(rs, false, s))
  {
    AgedReadable(rs, false, s);
    hide AllReadable;
    var u := AgedRecords(rs, false, s);
    forall i, j | 0 <= i < j < |u|
      ensures DnsRoundTrip.Rank(u[i].place) <= DnsRoundTrip.Rank(u[j].place)
    {
      AgedPointwise(rs, false, s, i);
      AgedPointwise(rs, false, s, j);
    }
  }

  lemma {:induction false} AgedStepsPointwise(steps: seq<Step>, seen: bool, s: int, i: nat)
    requires i < |steps|
    ensures var u := AgedSteps(steps, seen, s)[i]; u.commit == steps[i].commit && u.r.fields == steps[i].r.fields
  {
    if i > 0 {
      AgedCons(steps, seen, s);
      AgedStepsPointwise(steps[1..], seen || steps[0].r.rtype == OPT, s, i - 1);
    }
  }

  lemma {:induction false} AgedNothingLost(steps: seq<Step>, s: int)
    requires NothingLost(steps)
    ensures NothingLost(AgedSteps(steps, false, s)) && OpenAtEnd(AgedSteps(steps, false, s)) == OpenAtEnd(steps)
  {
    var u := AgedSteps(steps, false, s);
    hide HasData;
    forall i | 0 <= i < |u| - 1
      ensures u[i].commit || HasData(u[i].r.fields)
    {
      AgedStepsPointwise(steps, false, s, i);
    }
    if steps != [] { AgedStepsPointwise(steps, false, s, |steps| - 1); }
  }

  lemma {:induction false} NothingToAge(w: Writer, a: Ask, s: int)
    requires Between(w, a, []) && |w.content| < 0x1_0000
    ensures TwinSettled(w, w, s)
  {
    AgeSettled(w.content, a, [], s);
    var q := QuestionEnd(w.content, a);
    AgeNothing(w.content[q..], 0, s);
    assert w.content[..q] + w.content[q..] == w.content;
  }

  /** An aged packet is the packet written with every TTL before the first OPT record lower by the seconds
      modulo 2^32. */
  lemma {:induction false} AgedAsWritten(w: Writer, a: Ask, steps: seq<Step>, s: int)
    requires ValidName(a.name) && NothingLost(steps) && forall i :: 0 <= i < |steps| ==> WellFormed(steps[i].r)
    requires Mass(WriteAll(NewPacket(w, Text(a.name), a.qtype, a.qclass, a.opcode).w, steps).w) + RECORD_HEADER < 0x1_0000
    ensures var steps' := AgedSteps(steps, false, s);
            && Age(Packet(w, a, steps).content, s) == Packet(w, a, steps').content
            && Mass(WriteAll(NewPacket(w, Text(a.name), a.qtype, a.qclass, a.opcode).w, steps').w)
            == Mass(WriteAll(NewPacket(w, Text(a.name), a.qtype, a.qclass, a.opcode).w, steps).w)
  {
    var o := NewPacket(w, Text(a.name), a.qtype, a.qclass, a.opcode);
    OpenOk(w, a);
    assert After(o.w, a, []) by { assert RecordsOf([]) == []; }
    assert [] + steps == steps && RecordsOf([]) == [];
    AllGrow(o.w, steps);
    NothingToAge(o.w, a, s);
    NoOpt();
    hide WriteAll, NewPacket, HasOpt, After, Age, InRecord, Commit, WellFormed;
    WriteAllOk(o.w, a, [], steps);
    AllTwin(o.w, o.w, a, [], steps, s);
    AgedNothingLost(steps, s);
    var f, f' := WriteAll(o.w, steps).w, WriteAll(o.w, AgedSteps(steps, false, s)).w;
    ClosedTwin(f, f', a, steps, s);
  }

  lemma ClosedTwin(w: Writer, w': Writer, a: Ask, steps: seq<Step>, s: int)
    requires After(w, a, steps) && Twin(w, w', steps, s) && Mass(w) + RECORD_HEADER < 0x1_0000
    ensures Mass(w') == Mass(w) && Close(w', OpenAtEnd(steps)).content == Age(Close(w, OpenAtEnd(steps)).content, s)
  {
    hide InRecord, Between, Age, Commit, HasOpt;
    if OpenAtEnd(steps) {
      CommitTwin(w, w', a, RecordsOf(Init(steps)), Last(steps).r, s);
    }
  }

  /** A packet that was written and aged parses to the question and the records, with every TTL before the
      first OPT record lower by the seconds modulo 2^32. */
  lemma {:induction false} AgedPacketRoundTrip(w: Writer, a: Ask, steps: seq<Step>, s: int)
    requires Printable(a, RecordsOf(steps)) && NothingLost(steps)
    requires Mass(WriteAll(NewPacket(w, Text(a.name), a.qtype, a.qclass, a.opcode).w, steps).w) + RECORD_HEADER < 0x1_0000
    ensures ComesBack(Age(Packet(w, a, steps).content, s), a, AgedRecords(RecordsOf(steps), false, s))
  {
    var steps' := AgedSteps(steps, false, s);
    ReadableIsWellFormed(steps);
    AskIsValid(a, RecordsOf(steps));
    AgedAsWritten(w, a, steps, s);
    RecordsOfAged(steps, false, s);
    AgedPrintable(a, RecordsOf(steps), s);
    AgedNothingLost(steps, s);
    hide Printable, WriteAll, NewPacket, ComesBack, Age, Commit, AgedRecords, AgedSteps, Mass, WellFormed;
    PacketRoundTrip(w, a, steps');
  }
}
