/** Where the round trip stops: what happens beyond each of its hypotheses. */
module DnsLimits {
  import opened Octets
  import opened DnsNames
  import opened DnsWire
  import opened DnsWriter
  import opened DnsCompression
  import opened DnsReader
  import opened DnsRecords
  import opened DnsParser
  import opened DnsReadBack
  import opened DnsPacket
  import opened DnsRoundTrip
  import opened Wrappers

  // ---- Ten labels -----------------------------------------------------------------------------

  /** Names written one after the other, with the label map they share. */
  datatype Sheet = Sheet(view: View, labels: LabelMap)

  function Put(s: Sheet, n: Name): Sheet {
    var e := EmitName(s.labels, n, true, |s.view|);
    Sheet(s.view + e.bytes, s.labels + e.added)
  }

  const RUNG: Label := [97]

  function Tower(k: nat): (n: Name)
    ensures |n| == k
  {
    if k == 0 then [] else [RUNG] + Tower(k - 1)
  }

  lemma {:induction false} TowerDotted(k: nat)
    ensures |Dotted(Tower(k))| == 2 * k && ValidName(Tower(k))
  {
    if k > 0 {
      var n := Tower(k);
      assert n[0] == RUNG && n[1..] == Tower(k - 1);
      assert Escape(RUNG) == RUNG by { assert RUNG[1..] == []; }
      TowerDotted(k - 1);
      assert forall i :: 1 <= i < k ==> n[i] == n[1..][i - 1];
    }
  }

  lemma {:induction false} TowerChop(k: nat)
    requires k > 0
    ensures |Chop(Tower(k))| == 2 * k - 1
  {
    TowerDotted(k);
  }

  /** A name, a name with one more label in front, and so on up to k labels. */
  function Towers(k: nat): Sheet {
    if k == 0 then Sheet(Holes(HEADER), []) else Put(Towers(k - 1), Tower(k))
  }

  function TowerStart(k: nat): nat
    requires k > 0
  {
    if k == 1 then 12 else 4 * k + 7
  }

  ghost predicate Climbs(s: Sheet, k: nat) {
    && |s.view| == TowerStart(k + 1) && |s.labels| == k
    && forall i :: 1 <= i <= k ==> Rungs(s, i)
  }

  ghost predicate Rungs(s: Sheet, i: nat)
    requires 1 <= i <= |s.labels|
  {
    && s.labels[i - 1].key == Chop(Tower(i)) && s.labels[i - 1].offset == TowerStart(i)
    && LiteralAt(s.view, TowerStart(i), Tower(i)) && LiteralHops(s.view, TowerStart(i), Tower(i)) == i - 1
  }

  lemma {:induction false} RungsDiffer(s: Sheet, j: nat, i: nat)
    requires 1 <= j <= |s.labels| && Rungs(s, j) && i > 0 && i != j
    ensures Lower(s.labels[j - 1].key) != Lower(Chop(Tower(i)))
  {
    TowerChop(i);
    TowerChop(j);
    assert |Lower(s.labels[j - 1].key)| == 2 * j - 1 && |Lower(Chop(Tower(i)))| == 2 * i - 1;
  }

  lemma {:induction false} FindRung(s: Sheet, k: nat, i: nat)
    requires Climbs(s, k) && i > 0
    ensures Find(s.labels, Chop(Tower(i))) == if i <= k then i - 1 else k
  {
    hide Tower, Chop, Rungs, TowerStart;
    var f := Find(s.labels, Chop(Tower(i)));
    if f < k {
      assert Rungs(s, f + 1);
      if f + 1 != i { RungsDiffer(s, f + 1, i); }
    }
    if i <= k {
      assert Rungs(s, i);
      RungKey(s, i);
    }
  }

  lemma {:induction false} RungKey(s: Sheet, i: nat)
    requires 1 <= i <= |s.labels| && Rungs(s, i)
    ensures Lower(s.labels[i - 1].key) == Lower(Chop(Tower(i)))
  {
  }

  lemma {:induction false} FindPrefix(m: LabelMap, own: LabelMap, key: Bytes)
    requires Find(m, key) < |m|
    ensures Find(m + own, key) == Find(m, key)
  {
    assert (m + own)[0] == m[0];
    if Lower(m[0].key) != Lower(key) {
      FindPrefix(m[1..], own, key);
      assert (m + own)[1..] == m[1..] + own;
    }
  }

  function Below(k: nat): Bytes
    requires 0 < k <= 4000
  {
    if k == 1 then [0] else Pointer(TowerStart(k - 1))
  }

  /** The octets of rung k: its label, then a pointer to the rung below or the final zero. */
  function RungBytes(k: nat): (r: Bytes)
    requires 0 < k <= 4000
    ensures |r| == if k == 1 then 3 else 4
  {
    [1, 97] + Below(k)
  }

  lemma EmitBelow(s: Sheet, k: nat, own: LabelMap, pos: nat)
    requires 0 < k <= 4000 && Climbs(s, k - 1)
    ensures EmitName(s.labels + own, Tower(k - 1), true, pos) == Emitted(true, Below(k), [])
  {
    if k > 1 {
      FindRung(s, k - 1, k - 1);
      assert Rungs(s, k - 1);
      FindPrefix(s.labels, own, Chop(Tower(k - 1)));
      assert (s.labels + own)[k - 2] == s.labels[k - 2];
    }
  }

  lemma {:induction false} PutRung(s: Sheet, k: nat)
    requires 0 < k <= 4000 && Climbs(s, k - 1)
    ensures Put(s, Tower(k)) == Sheet(s.view + RungBytes(k), s.labels + [Entry(Chop(Tower(k)), TowerStart(k))])
  {
    var n, pos := Tower(k), TowerStart(k);
    var own: LabelMap := [Entry(Chop(n), pos)];
    FindRung(s, k - 1, k);
    EmitBelow(s, k, own, pos + 2);
    assert |s.labels| == k - 1 && |s.view| == pos;
    assert n[0] == RUNG && n[1..] == Tower(k - 1);
    hide Climbs, Tower, EmitName, Chop, Find, Below;
    EmitNameCons(s.labels, n, true, pos, own, [1, 97], pos + 2);
    assert own + [] == own;
  }

  lemma BelowReads(s: Sheet, k: nat, w: View, p: nat)
    requires 0 < k <= 4000 && Climbs(s, k - 1) && p == TowerStart(k) + 2 && w == s.view + RungBytes(k)
    ensures NameAt(w, p, Tower(k - 1)) && Hops(w, p, Tower(k - 1)) == k - 1
  {
    var b := RungBytes(k);
    AppendRefines(s.view, b);
    assert w[p] == b[2];
    if k == 1 {
      assert LiteralAt(w, p, []);
    } else {
      assert Rungs(s, k - 1);
      LiteralRefines(s.view, w, TowerStart(k - 1), Tower(k - 1));
      assert w[p + 1] == b[3];
      assert PointerAt(w, p) && Target(w, p) == TowerStart(k - 1);
      assert !LiteralAt(w, p, Tower(k - 1));
    }
  }

  lemma {:induction false} RungReads(s: Sheet, k: nat, t: Sheet)
    requires 0 < k <= 4000 && Climbs(s, k - 1)
    requires t == Sheet(s.view + RungBytes(k), s.labels + [Entry(Chop(Tower(k)), TowerStart(k))])
    ensures Rungs(t, k)
  {
    var w, p, n, b := t.view, TowerStart(k), Tower(k), RungBytes(k);
    BelowReads(s, k, w, p + 2);
    assert |s.view| == p && |s.labels| == k - 1;
    hide Climbs;
    assert w[p] == b[0] && w[p + 1] == b[1];
    assert n[0] == RUNG && n[1..] == Tower(k - 1);
    assert LabelBytes(w, p + 1, RUNG) by { assert SameOctet(w[p + 1 + 0], RUNG[0]); }
    assert LiteralAt(w, p, n) && LiteralHops(w, p, n) == k - 1;
  }

  lemma {:induction false} TowersClimb(k: nat)
    requires k <= 4000
    ensures Climbs(Towers(k), k)
  {
    if k > 0 {
      var s, t := Towers(k - 1), Towers(k);
      TowersClimb(k - 1);
      PutRung(s, k);
      RungReads(s, k, t);
      AppendRefines(s.view, RungBytes(k));
      forall i | 1 <= i <= k
        ensures Rungs(t, i)
      {
        if i < k {
          assert Rungs(s, i);
          LiteralRefines(s.view, t.view, TowerStart(i), Tower(i));
          assert t.labels[i - 1] == s.labels[i - 1];
        }
      }
    }
  }

  lemma {:induction false} TopHops(s: Sheet, k: nat)
    requires 0 < k <= 4000 && Climbs(s, k)
    ensures var w := Put(s, Tower(k)).view;
            |w| == |s.view| + 2 && NameAt(w, |s.view|, Tower(k)) && Hops(w, |s.view|, Tower(k)) == k && NameEnd(w, |s.view|, Tower(k)) == |w|
  {
    var n, v := Tower(k), s.view;
    FindRung(s, k, k);
    assert Rungs(s, k);
    var o := s.labels[k - 1].offset;
    hide Climbs, TowerStart;
    PointerReads(v, n, o);
    var w := v + Pointer(o);
    assert Put(s, n).view == w;
    AppendRefines(v, Pointer(o));
    LiteralRefines(v, w, o, n);
    assert w[|v|] >= 192 && Target(w, |v|) == o;
    assert !LiteralAt(w, |v|, n);
  }

  /** Names of 1 to k labels, each one label longer than the one before, and the last of them written once
      more: the writer always produces them, and the reader gets the last one back exactly when k is at most ten. */
  lemma {:induction false} TowerReadsUpToTen(k: nat, packet: Bytes, pos: nat, at: nat)
    requires 0 < k <= 4000 && Refines(Put(Towers(k), Tower(k)).view, packet) && |packet| < 0x1_0000
    requires pos == |Towers(k).view| && pos == at + HEADER
    ensures |packet| >= HEADER
    ensures var r := GetLabelFromContent(packet[HEADER..], at, [], 0);
            if k <= MAX_RECURSION then Reads(r, Text(Tower(k)), at + 2) else r == Loop
  {
    var s, n := Towers(k), Tower(k);
    TowersClimb(k);
    TopHops(s, k);
    hide Climbs, Towers, Tower, Put, Reads;
    NameRefines(Put(s, n).view, packet, pos, n);
    ReadsName(packet, pos, n, [], 0, at);
    FinishIsText(n);
  }

  // ---- Labels of 192 octets and more ----------------------------------------------------------

  lemma {:induction false} DottedSnoc(m: Name, l: Label)
    ensures Dotted(m + [l]) == Dotted(m) + Escape(l) + [DOT]
  {
    if m == [] {
      assert m + [l] == [l] && [l][1..] == [];
    } else {
      assert (m + [l])[1..] == m[1..] + [l];
      DottedSnoc(m[1..], l);
    }
  }

  /** Whatever the packet and the position, a text that the reader gives is that of a name with labels of
      1 to 191 octets; m is what it has read so far. */
  lemma {:induction false} ReadsValidNames(content: Bytes, pos: nat, ret: Bytes, recurs: nat, m: Name) returns (n: Name)
    requires recurs <= MAX_RECURSION && ret == Dotted(m) && ValidName(m)
    ensures var r := ReadLabels(content, pos, ret, recurs); r.GotLabel? ==> ValidName(n) && r.text == Text(n)
    decreases MAX_RECURSION - recurs, |content| - pos
  {
    n := m;
    if pos < |content| {
      var len := content[pos];
      if len == 0 {
        if m != [] { DottedNonEmpty(m); }
      } else if len >= 192 {
        if pos + 1 < |content| && recurs < MAX_RECURSION {
          var target := (256 * (len as int - 192) + content[pos + 1] - HEADER) % 0x1_0000;
          n := ReadsValidNames(content, target, ret, recurs + 1, m);
        }
      } else if pos + 1 + len <= |content| {
        var l := content[pos + 1..pos + 1 + len];
        DottedSnoc(m, l);
        n := ReadsValidNames(content, pos + 1 + len, ret + Escape(l) + [DOT], recurs, m + [l]);
      }
    }
  }

  /** No packet gives back a name with a label of more than 191 octets. */
  lemma {:induction false} LongLabelNeverRead(content: Bytes, pos: nat, n: Name)
    requires NoEmptyLabel(n) && !ValidName(n)
    ensures var r := ReadName(content, pos); r.Got? ==> Lower(r.value) != Lower(Text(n))
  {
    var m := ReadsValidNames(content, pos, [], 0, []);
    var r := ReadName(content, pos);
    if r.Got? && Lower(r.value) == Lower(Text(n)) {
      TextInjective(m, n);
      forall i | 0 <= i < |n|
        ensures ValidLabel(n[i])
      {
        assert ValidLabel(m[i]) && LowerName(m)[i] == LowerName(n)[i];
        assert |Lower(m[i])| == |m[i]| && |Lower(n[i])| == |n[i]|;
      }
      assert false;
    }
  }

  /** A name of at most ten labels that is written at the end of the content comes back exactly when no
      label is longer than 191 octets. */
  lemma {:induction false} LabelsComeBackIff(w: Writer, n: Name, compress: bool, rest: Bytes)
    requires |w.content| >= HEADER && w.record == [] && w.stuff == 0 && MapOk(Base(w.content), w.labels)
    requires NoEmptyLabel(n) && |n| <= MAX_LABELS
    requires |w.content| + |LabelOf(w, Text(n), compress).bytes| + |rest| < 0x1_0000
    ensures var e := LabelOf(w, Text(n), compress);
            var r := ReadName((w.content + e.bytes + rest)[HEADER..], |w.content| - HEADER);
            e.ok && r.Got? && Lower(r.value) == Lower(Text(n)) <==> ValidName(n)
  {
    hide EmitName, LabelOf, ReadName, MapOk;
    var e := LabelOf(w, Text(n), compress);
    var packet := w.content + e.bytes + rest;
    if ValidName(n) {
      var v, none: LabelMap := Base(w.content), [];
      LabelOfName(w, n, compress);
      assert w.labels + none == w.labels;
      EmitNameOk(v, w.labels, none, n, compress && !w.canonic);
      BaseOfPacket(w.content, e.bytes, rest);
      NameRefines(v + e.bytes, packet, |w.content|, n);
      NameReads(packet, |w.content|, |w.content| - HEADER, n);
    } else {
      LongLabelNeverRead(packet[HEADER..], |w.content| - HEADER, n);
    }
  }

  lemma BaseOfPacket(content: Bytes, b: Bytes, rest: Bytes)
    requires |content| >= HEADER
    ensures Refines(Base(content) + b, content + b + rest)
  {
  }

  // ---- No write after rollback ----------------------------------------------------------------

  lemma {:induction false} SelfPointerLoops(content: Bytes, at: nat, ret: Bytes, recurs: nat)
    requires recurs <= MAX_RECURSION && at + 1 < |content| && at < 0x1_0000
    requires content[at] >= 192 && 256 * (content[at] as int - 192) + content[at + 1] == at + HEADER
    ensures ReadLabels(content, at, ret, recurs) == Loop
    decreases MAX_RECURSION - recurs
  {
    if recurs < MAX_RECURSION {
      SelfPointerLoops(content, at, ret, recurs + 1);
      StepPointer(content, at, at, ret, recurs);
    }
  }

  lemma {:induction false} FindNew(m: LabelMap, e: Entry, rest: LabelMap, key: Bytes)
    requires Find(m, key) == |m| && Lower(e.key) == Lower(key)
    ensures Find(m + ([e] + rest), key) == |m|
  {
    var all := m + ([e] + rest);
    if m == [] {
      assert all[0] == e;
    } else {
      assert all[0] == m[0] && all[1..] == m[1..] + ([e] + rest);
      FindNew(m[1..], e, rest, key);
    }
  }

  lemma {:induction false} NewNameRemembered(m: LabelMap, n: Name, pos: nat)
    requires n != [] && Find(m, Chop(n)) == |m| && pos < 16384
    ensures var e := EmitName(m, n, true, pos);
            var again := m + e.added;
            Find(again, Chop(n)) == |m| < |again| && again[|m|].offset == pos
  {
    var own := Entry(Chop(n), pos);
    var rest := EmitName(m + [own], n[1..], true, pos + |n[0]| + 1).added;
    assert EmitName(m, n, true, pos).added == [own] + rest;
    FindNew(m, own, rest, Chop(n));
    assert (m + ([own] + rest))[|m|] == own;
  }

  /** The label map remembers n at the end of the content, where nothing is written any more. */
  ghost predicate Stale(w: Writer, n: Name) {
    && w.record == [] && !w.canonic && n != []
    && var i := Find(w.labels, Chop(n));
    && i < |w.labels| && w.labels[i].offset == |w.content|
  }

  lemma RollbackLeavesStale(w: Writer, r: Record)
    requires w.record == [] && !w.canonic && |w.content| < 16384 && ValidName(r.owner) && r.owner != []
    requires Lower(w.qname) != Lower(Text(r.owner)) && Find(w.labels, Chop(r.owner)) == |w.labels|
    requires EmitName(w.labels, r.owner, true, |w.content|).ok
    ensures var back := Rollback(StartOwner(w, HeadOf(r)).w);
            Stale(back, r.owner) && back.content == w.content && back.qname == w.qname
  {
    hide EmitName, LabelOf, Chop, StartOwner;
    StartOwnerWrites(w, r);
    NewNameRemembered(w.labels, r.owner, |w.content|);
  }

  lemma StaleLoops(w: Writer, r: Record)
    requires Stale(w, r.owner) && HEADER <= |w.content| < 16384 && ValidName(r.owner)
    requires Lower(w.qname) != Lower(Text(r.owner))
    ensures var o := StartOwner(w, HeadOf(r));
            && o.ok && o.w.content == w.content + Pointer(|w.content|)
            && ReadName(o.w.content[HEADER..], |w.content| - HEADER) == Failed(BAD_DATA)
  {
    hide EmitName, LabelOf, Chop, StartOwner, ReadName;
    PointerEmitted(w.labels, r.owner, |w.content|, Find(w.labels, Chop(r.owner)));
    StartOwnerWrites(w, r);
    SelfPointerUnreadable(w.content, |w.content|);
  }

  /** The label map survives a rollback, so a new name that is started, rolled back and started again
      becomes a pointer to itself, which no reader can follow. */
  lemma RollbackThenSameName(w: Writer, a: Ask, rs: seq<Record>, r: Record)
    requires Between(w, a, rs) && |w.content| < 16384 && ValidName(a.name) && ValidName(r.owner) && r.owner != []
    requires Lower(Text(a.name)) != Lower(Text(r.owner)) && Find(w.labels, Chop(r.owner)) == |w.labels|
    ensures var again := StartOwner(Rollback(StartOwner(w, HeadOf(r)).w), HeadOf(r));
            && again.ok && again.w.content == w.content + Pointer(|w.content|)
            && ReadName(again.w.content[HEADER..], |w.content| - HEADER) == Failed(BAD_DATA)
  {
    OwnerCompressed(Base(w.content), r.owner, w.labels);
    hide EmitName, Chop, StartOwner, Rollback, Stale, ReadName, Holds, MapOk;
    RollbackLeavesStale(w, r);
    StaleLoops(Rollback(StartOwner(w, HeadOf(r)).w), r);
  }

  lemma SelfPointerUnreadable(content: Bytes, m: Offset)
    requires |content| == m >= HEADER
    ensures ReadName((content + Pointer(m))[HEADER..], m - HEADER) == Failed(BAD_DATA)
  {
    var c, at := content + Pointer(m), m - HEADER;
    assert c[HEADER..][at] == c[m] == Pointer(m)[0] && c[HEADER..][at + 1] == c[m + 1] == Pointer(m)[1];
    SelfPointerLoops(c[HEADER..], at, [], 0);
  }

  lemma {:induction false} PointerEmitted(m: LabelMap, n: Name, pos: nat, i: nat)
    requires n != [] && Find(m, Chop(n)) == i < |m|
    ensures EmitName(m, n, true, pos) == Emitted(true, Pointer(m[i].offset), [])
  {
  }

  // ---- Section order --------------------------------------------------------------------------

  predicate ParsedInOrder(ps: seq<ParsedRecord>) {
    forall i, j :: 0 <= i < j < |ps| ==> Rank(ps[i].place) <= Rank(ps[j].place)
  }

  lemma ReadsPlace(content: Bytes, pos: nat, place: Place)
    ensures ReadRecord(content, pos, place).Got? ==> ReadRecord(content, pos, place).value.place == place
  {
  }

  lemma {:induction false} PlacesAreCounted(content: Bytes, pos: nat, c: Counts, n: nat)
    ensures var ps := ReadRecords(content, pos, c, n).records;
            |ps| <= (if n <= Total(c) then Total(c) - n else 0) &&
            forall i :: 0 <= i < |ps| ==> ps[i].place == PlaceOf(c, n + i)
    decreases Total(c) - n
  {
    ReadsPlace(content, pos, PlaceOf(c, n));
    hide ReadRecord, PlaceOf;
    var ps := ReadRecords(content, pos, c, n).records;
    if n < Total(c) && ReadRecord(content, pos, PlaceOf(c, n)).Got? {
      var r := ReadRecord(content, pos, PlaceOf(c, n));
      PlacesAreCounted(content, r.next, c, n + 1);
      var qs := ReadRecords(content, r.next, c, n + 1).records;
      assert ps == [r.value] + qs;
      forall i | 0 <= i < |ps|
        ensures ps[i].place == PlaceOf(c, n + i)
      {
        if i > 0 { assert qs[i - 1].place == PlaceOf(c, n + 1 + (i - 1)); }
      }
    }
  }

  lemma PlacesAreRanked(c: Counts, i: nat, j: nat)
    requires i < j
    ensures Rank(PlaceOf(c, i)) <= Rank(PlaceOf(c, j))
  {
  }

  lemma {:induction false} ParsedAnswers(packet: Bytes) returns (content: Bytes, pos: nat)
    requires Parse(packet).Parsed?
    ensures |packet| >= HEADER && Parse(packet).answers == ReadRecords(content, pos, CountsOf(packet), 0).records
  {
    hide ReadRecords, ReadQuestions;
    content := packet[HEADER..HEADER + (|packet| - HEADER) % 0x1_0000];
    pos := ReadQuestions(content, 0, FromBe16(packet[4..6]), Question([], 0, 0)).next;
  }

  /** Whatever the packet, the parser reports sections in order and never more records than the header
      counts: records written out of order, or not counted, cannot come back. */
  lemma {:induction false} ParserLimits(packet: Bytes)
    requires Parse(packet).Parsed?
    ensures ParsedInOrder(Parse(packet).answers)
    ensures |packet| >= HEADER && |Parse(packet).answers| <= Total(CountsOf(packet))
  {
    hide Parse, CountsOf, ReadRecords, PlaceOf;
    var content, pos := ParsedAnswers(packet);
    var c := CountsOf(packet);
    PlacesAreCounted(content, pos, c, 0);
    var ps := Parse(packet).answers;
    forall i, j | 0 <= i < j < |ps|
      ensures Rank(ps[i].place) <= Rank(ps[j].place)
    {
      PlacesAreRanked(c, i, j);
      assert ps[i].place == PlaceOf(c, 0 + i) && ps[j].place == PlaceOf(c, 0 + j);
    }
  }

  // ---- Records without data -------------------------------------------------------------------

  /** The number of records the header announces. */
  function Announced(content: Bytes): nat
    requires |content| >= HEADER
  {
    CountField(content, ANSWER) + CountField(content, AUTHORITY) + CountField(content, ADDITIONAL)
  }

  lemma AnnouncedIsTotal(content: Bytes)
    requires |content| >= HEADER
    ensures Announced(content) == Total(CountsOf(content))
  {
  }

  lemma AppendKeepsAnnounced(content: Bytes, b: Bytes)
    requires |content| >= HEADER
    ensures Announced(content + b) == Announced(content)
  {
  }

  /** A writer whose record buffer is non-empty exactly when pending says so. */
  ghost predicate Pending(w: Writer, pending: bool) {
    |w.content| >= HEADER && (w.record != [] <==> pending) && (pending ==> w.stuff == RECORD_HEADER)
  }

  /** Every record the header announces has taken the octets of a record header. */
  predicate Paid(w: Writer) {
    |w.content| >= HEADER && 10 * Announced(w.content) <= |w.content|
  }

  lemma CommitAnnounces(w: Writer)
    requires |w.content| >= HEADER && w.stuff == RECORD_HEADER && Announced(w.content) < 0xffff
    ensures var o := Commit(w);
            && o.ok && Pending(o.w, false) && Announced(o.w.content) == Announced(w.content) + 1
            && |o.w.content| == |w.content| + RECORD_HEADER + |w.record|
  {
    hide BumpCount, RecordHeader, CountField;
    var c := w.content + (RecordHeader(w.head, |w.record| % 0x1_0000) + w.record);
    AppendKeepsAnnounced(w.content, RecordHeader(w.head, |w.record| % 0x1_0000) + w.record);
    assert c == w.content + RecordHeader(w.head, |w.record| % 0x1_0000) + w.record;
    forall q: Place
      ensures CountField(BumpCount(c, w.head.place), q) == CountField(c, q) + (if w.head.place == q then 1 else 0)
    {
      BumpAddsOne(c, w.head.place, q);
      assert CountField(c, q) < 0xffff;
    }
  }

  lemma {:induction false} EmitSucceeds(m: LabelMap, n: Name, compress: bool, pos: nat)
    ensures EmitName(m, n, compress, pos).ok && EmitName(m, n, compress, pos).bytes != []
    decreases |n|
  {
    if n != [] && !(compress && Find(m, Chop(n)) < |m|) {
      var own: LabelMap := if pos < 16384 then [Entry(Chop(n), pos)] else [];
      EmitSucceeds(m + own, n[1..], compress, pos + |n[0]| + 1);
    }
  }

  lemma StartAnnounces(w: Writer, r: Record, pending: bool)
    requires Pending(w, pending) && ValidName(r.owner) && Paid(w) && |w.content| < 0x1_0000
    ensures var o := StartRecord(w, HeadOf(r));
            && o.ok && Pending(o.w, false) && o.w.stuff == RECORD_HEADER && Paid(o.w)
            && Announced(o.w.content) == Announced(w.content) + (if pending then 1 else 0)
  {
    if pending { CommitAnnounces(w); }
    hide Commit, LabelOf, Announced;
    var v := if pending then Commit(w).w else w;
    var h := HeadOf(r);
    assert v.record == [] && StartRecord(w, h) == StartOwner(v, h);
    OwnerAnnounces(v, r);
  }

  lemma OwnerAnnounces(w: Writer, r: Record)
    requires Pending(w, false) && ValidName(r.owner)
    ensures var o := StartOwner(w, HeadOf(r));
            && o.ok && Pending(o.w, false) && o.w.stuff == RECORD_HEADER && Announced(o.w.content) == Announced(w.content)
            && |o.w.content| >= |w.content|
  {
    hide LabelOf, Announced;
    var v := w.(head := HeadOf(r), stuff := 0, marker := |w.content| % 0x1_0000);
    LabelOfName(v, r.owner, true);
    EmitSucceeds(v.labels, r.owner, !v.canonic, Position(v));
    AppendKeepsAnnounced(w.content, [0xc0, 0x0c]);
    AppendKeepsAnnounced(w.content, LabelOf(v, Text(r.owner), true).bytes);
    assert [] + LabelOf(v, Text(r.owner), true).bytes == LabelOf(v, Text(r.owner), true).bytes;
  }

  lemma FieldGrows(w: Writer, f: Field)
    requires f.Valid()
    ensures var o := WriteField(w, f);
            && o.ok && o.w.content == w.content && o.w.stuff == w.stuff
            && (o.w.record != [] <==> w.record != [] || (f.FName? || f.Octets() != []))
  {
    hide LabelOf;
    if f.FName? {
      LabelOfName(w, f.name, f.compress);
      EmitSucceeds(w.labels, f.name, f.compress && !w.canonic, Position(w));
    }
  }

  lemma {:induction false} FieldsGrowIff(w: Writer, fs: seq<Field>)
    requires AllValid(fs)
    ensures var o := WriteFields(w, fs);
            && o.ok && o.w.content == w.content && o.w.stuff == w.stuff
            && (o.w.record != [] <==> w.record != [] || HasData(fs))
    decreases |fs|
  {
    hide WriteField;
    if fs != [] {
      FieldGrows(w, fs[0]);
      FieldsGrowIff(WriteField(w, fs[0]).w, fs[1..]);
      assert HasData(fs) <==> (fs[0].FName? || fs[0].Octets() != []) || HasData(fs[1..]) by {
        if HasData(fs) {
          var i :| 0 <= i < |fs| && (fs[i].FName? || fs[i].Octets() != []);
          if i > 0 { assert fs[1..][i - 1] == fs[i]; }
        }
        if HasData(fs[1..]) {
          var i :| 0 <= i < |fs[1..]| && (fs[1..][i].FName? || fs[1..][i].Octets() != []);
          assert fs[i + 1] == fs[1..][i];
        }
      }
    }
  }

  function One(b: bool): nat {
    if b then 1 else 0
  }

  /** How often the header is bumped while the steps are written and the packet is closed; pending says
      that data is waiting, open that a record was started and not committed. */
  function Bumps(pending: bool, open: bool, steps: seq<Step>): nat
    decreases |steps|
  {
    if steps == [] then One(open)
    else One(pending) + One(steps[0].commit) + Bumps(!steps[0].commit && HasData(steps[0].r.fields), !steps[0].commit, steps[1..])
  }

  lemma StepAnnounces(w: Writer, s: Step, pending: bool)
    requires Pending(w, pending) && WellFormed(s.r) && Paid(w) && Mass(WriteStep(w, s).w) < 0x1_0000
    ensures var o := WriteStep(w, s);
            && o.ok && Pending(o.w, !s.commit && HasData(s.r.fields)) && Paid(o.w)
            && (!s.commit ==> o.w.stuff == RECORD_HEADER)
            && Announced(o.w.content) == Announced(w.content) + One(pending) + One(s.commit)
  {
    StepGrows(w, s);
    hide Announced, StartRecord, WriteFields, Commit, HasData;
    StartAnnounces(w, s.r, pending);
    var o := StartRecord(w, HeadOf(s.r));
    FieldsGrowIff(o.w, s.r.fields);
    var f := WriteFields(o.w, s.r.fields);
    if s.commit { CommitAnnounces(f.w); }
  }

  function Close(w: Writer, open: bool): Writer {
    if open then Commit(w).w else w
  }

  lemma {:induction false} AllAnnounce(w: Writer, steps: seq<Step>, pending: bool, open: bool)
    requires Pending(w, pending) && (pending ==> open) && (open ==> w.stuff == RECORD_HEADER)
    requires (forall i :: 0 <= i < |steps| ==> WellFormed(steps[i].r)) && Paid(w) && Mass(WriteAll(w, steps).w) < 0x1_0000
    ensures var f := WriteAll(w, steps);
            var last := if steps == [] then open else OpenAtEnd(steps);
            && f.ok && |f.w.content| >= HEADER && |Close(f.w, last).content| >= HEADER
            && Announced(Close(f.w, last).content) == Announced(w.content) + Bumps(pending, open, steps)
    decreases |steps|
  {
    hide WriteStep, WellFormed, HasData, Commit, Announced;
    if steps == [] {
      if open { CommitAnnounces(w); }
    } else {
      var s := steps[0];
      StepGrows(w, s);
      if WriteStep(w, s).ok { AllGrow(WriteStep(w, s).w, steps[1..]); }
      StepAnnounces(w, s, pending);
      AllAnnounce(WriteStep(w, s).w, steps[1..], !s.commit && HasData(s.r.fields), !s.commit);
    }
  }

  lemma {:induction false} BumpsCountAll(pending: bool, open: bool, steps: seq<Step>)
    requires pending ==> open
    ensures Bumps(pending, open, steps) <= One(open) + |steps|
    ensures Bumps(pending, open, steps) == One(open) + |steps| <==> (steps != [] ==> pending == open) && NothingLost(steps)
    decreases |steps|
  {
    hide HasData;
    if steps != [] {
      var s, tail := steps[0], steps[1..];
      BumpsCountAll(!s.commit && HasData(s.r.fields), !s.commit, tail);
      assert NothingLost(steps) <==> (tail != [] ==> s.commit || HasData(s.r.fields)) && NothingLost(tail) by {
        if NothingLost(steps) {
          forall i | 0 <= i < |tail| - 1 ensures tail[i].commit || HasData(tail[i].r.fields) { assert tail[i] == steps[i + 1]; }
        }
        if (tail != [] ==> s.commit || HasData(s.r.fields)) && NothingLost(tail) {
          forall i | 0 <= i < |steps| - 1 ensures steps[i].commit || HasData(steps[i].r.fields) {
            if i > 0 { assert steps[i] == tail[i - 1]; }
          }
        }
      }
    }
  }

  function Packet(w: Writer, a: Ask, steps: seq<Step>): Writer {
    Close(WriteAll(NewPacket(w, Text(a.name), a.qtype, a.qclass, a.opcode).w, steps).w, OpenAtEnd(steps))
  }

  lemma OpenAnnouncesNothing(w: Writer, a: Ask)
    requires ValidName(a.name)
    ensures var o := NewPacket(w, Text(a.name), a.qtype, a.qclass, a.opcode);
            o.ok && Pending(o.w, false) && Announced(o.w.content) == 0 && Paid(o.w)
  {
    OpenOk(w, a);
    var c := NewPacket(w, Text(a.name), a.qtype, a.qclass, a.opcode).w.content;
    assert CountField(c, ANSWER) == CountOf([], ANSWER) % 0x1_0000;
    assert CountField(c, AUTHORITY) == CountOf([], AUTHORITY) % 0x1_0000;
    assert CountField(c, ADDITIONAL) == CountOf([], ADDITIONAL) % 0x1_0000;
  }

  /** A packet comes back whole exactly when every record but the last was committed explicitly or holds
      data, and the last one does not end in an empty blob behind other fields. */
  lemma {:induction false} RoundTripIff(w: Writer, a: Ask, steps: seq<Step>)
    requires Printable(a, RecordsOf(steps))
    requires Mass(WriteAll(NewPacket(w, Text(a.name), a.qtype, a.qclass, a.opcode).w, steps).w) + RECORD_HEADER < 0x1_0000
    ensures ParsesTo(Packet(w, a, steps).content, a, RecordsOf(steps))
        <==> NothingLost(steps) && !LastEndsEmpty(RecordsOf(steps))
  {
    if NothingLost(steps) {
      PacketRoundTrip(w, a, steps);
    } else {
      ReadableIsWellFormed(steps);
      OpenAnnouncesNothing(w, a);
      hide WriteAll, NewPacket, ParsesTo, Announced, NothingLost, Printable, WellFormed, Bumps;
      var o := NewPacket(w, Text(a.name), a.qtype, a.qclass, a.opcode);
      AllAnnounce(o.w, steps, false, false);
      BumpsCountAll(false, false, steps);
      TooFewAnnounced(Packet(w, a, steps).content, a, steps);
    }
  }

  const ROOT := Ask([], 1, 1, 0)

  /** A key record of the root with an empty key. */
  const EMPTY_KEY := Record([], 25, 1, 0, ANSWER, [F16(256), F8(3), F8(5), FRest([])])

  function Keys(k: nat): (steps: seq<Step>)
    ensures |steps| == k && forall i :: 0 <= i < k ==> steps[i] == Step(EMPTY_KEY, true)
  {
    seq(k, i => Step(EMPTY_KEY, true))
  }

  lemma {:induction false} KeyMass(w: Writer)
    requires w.record == [] && Lower(w.qname) == Lower([DOT])
    ensures var o := WriteStep(w, Step(EMPTY_KEY, true));
            o.ok && o.w.record == [] && o.w.qname == w.qname && |o.w.content| == |w.content| + 16
  {
    var o := StartRecord(w, HeadOf(EMPTY_KEY));
    assert o.ok && o.w.record == [] && |o.w.content| == |w.content| + 2 && o.w.stuff == RECORD_HEADER;
    var fs := EMPTY_KEY.fields;
    hide StartRecord;
    assert fs[1..] == [F8(3), F8(5), FRest([])] && fs[1..][1..] == [F8(5), FRest([])];
    assert fs[1..][1..][1..] == [FRest([])] && fs[1..][1..][1..][1..] == [];
    var v := WriteFields(WriteField(o.w, fs[0]).w, fs[1..]).w;
    assert |WriteFields(o.w, fs).w.record| == 4;
  }

  lemma {:induction false} KeysMass(w: Writer, k: nat)
    requires w.record == [] && Lower(w.qname) == Lower([DOT])
    ensures Mass(WriteAll(w, Keys(k)).w) == Mass(w) + 16 * k
    decreases k
  {
    hide WriteStep;
    if k > 0 {
      KeyMass(w);
      assert Keys(k)[1..] == Keys(k - 1);
      KeysMass(WriteStep(w, Keys(k)[0]).w, k - 1);
    }
  }

  lemma {:induction false} KeysPrintable(k: nat)
    ensures AllReadable(RecordsOf(Keys(k)))
  {
    assert Layout(1, 25) == [K16, K8, K8, KRest];
    assert Readable(EMPTY_KEY);
    if k > 0 {
      assert RecordsOf(Keys(k))[1..] == RecordsOf(Keys(k - 1));
      KeysPrintable(k - 1);
    }
  }

  lemma {:induction false} RootOpens(w: Writer)
    ensures var o := NewPacket(w, Text([]), 1, 1, 0);
            o.ok && |o.w.content| == 17 && o.w.record == [] && o.w.qname == [DOT]
  {
    hide EmitPieces, Tokenize, Pieces;
  }

  lemma {:induction false} KeysKept(k: nat)
    requires k > 0
    ensures NothingLost(Keys(k)) && !OpenAtEnd(Keys(k)) && LastEndsEmpty(RecordsOf(Keys(k))) && InSectionOrder(RecordsOf(Keys(k)))
  {
  }

  /** However many empty keys of the root are written, the last of them cannot be read and the packet is
      rejected. */
  lemma {:induction false} EmptyKeysRejected(w: Writer, k: nat)
    requires 0 < k <= 4000
    ensures Parse(Packet(w, ROOT, Keys(k)).content) == ParseError
  {
    KeysPrintable(k);
    KeysKept(k);
    RootOpens(w);
    hide NewPacket, WriteAll, Keys, AllReadable, LastEndsEmpty, InSectionOrder, NothingLost, OpenAtEnd, ParsesTo, Parse, ShortName, Text;
    KeysMass(NewPacket(w, Text([]), 1, 1, 0).w, k);
    RootIsShort();
    PacketRoundTrip(w, ROOT, Keys(k));
  }

  lemma RootIsShort()
    ensures ShortName([])
  {
  }

  lemma TooFewAnnounced(content: Bytes, a: Ask, steps: seq<Step>)
    requires |content| >= HEADER && Announced(content) < |steps|
    ensures !ParsesTo(content, a, RecordsOf(steps))
  {
    if Parse(content).Parsed? {
      ParserLimits(content);
      AnnouncedIsTotal(content);
    }
  }
}
