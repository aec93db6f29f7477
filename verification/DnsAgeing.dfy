/** Ageing a packet in place: every TTL before the first OPT record goes down by the same number of
    seconds, and whatever cannot be parsed is silently left alone. */
module DnsAgeing {
  import opened Octets
  import opened DnsWire
  import opened Wrappers

  const OPT := 41

  // ---- What ageing does to a packet -----------------------------------------------------------

  /** The length of the name at the start of t: a pointer ends it, and None means it does not fit. */
  function NameLength(t: Bytes): (r: Option<nat>)
    ensures r.Some? ==> 1 <= r.value <= |t|
    decreases |t|
  {
    if t == [] then None
    else if t[0] == 0 then Some(1)
    else if t[0] >= 0xc0 then (if |t| < 2 then None else Some(2))
    else if |t| < 1 + t[0] then None
    else
      match NameLength(t[1 + t[0]..])
      case None => None
      case Some(l) => Some(1 + t[0] + l)
  }

  /** The questions at the start of t: a name and four octets each. */
  function QuestionsLength(t: Bytes, n: nat): (r: Option<nat>)
    ensures r.Some? ==> r.value <= |t|
    decreases n
  {
    if n == 0 then Some(0)
    else
      match NameLength(t)
      case None => None
      case Some(l) =>
        if |t| < l + 4 then None
        else
          match QuestionsLength(t[l + 4..], n - 1)
          case None => None
          case Some(rest) => Some(l + 4 + rest)
  }

  /** Where the TTL of the first record of t is, if the walk gets that far and it is not an OPT record. */
  function TtlAt(t: Bytes): (r: Option<nat>)
    ensures r.Some? ==> 4 < r.value && r.value + 4 <= |t|
  {
    match NameLength(t)
    case None => None
    case Some(l) =>
      if |t| < l + 8 || FromBe16(t[l..l + 2]) == OPT then None else Some(l + 4)
  }

  /** Where the next record starts, given the TTL position of this one. */
  function NextAt(t: Bytes, ttl: nat): (r: Option<nat>)
    requires ttl + 4 <= |t|
    ensures r.Some? ==> ttl + 6 <= r.value <= |t|
  {
    if |t| < ttl + 6 then None
    else
      var next := ttl + 6 + FromBe16(t[ttl + 4..ttl + 6]);
      if |t| < next then None else Some(next)
  }

  function Aged(ttl: Bytes, s: int): (r: Bytes)
    requires |ttl| == 4
    ensures |r| == 4
  {
    Be32(FromBe32(ttl) - s)
  }

  /** At most n records at the start of t, aged by s seconds. */
  function AgeRecords(t: Bytes, n: nat, s: int): (r: Bytes)
    ensures |r| == |t|
    decreases n
  {
    if n == 0 || TtlAt(t).None? then t
    else
      var ttl := TtlAt(t).value;
      var head := t[..ttl] + Aged(t[ttl..ttl + 4], s);
      match NextAt(t, ttl)
      case None => head + t[ttl + 4..]
      case Some(next) => head + t[ttl + 4..next] + AgeRecords(t[next..], n - 1, s)
  }

  function QuestionCount(p: Bytes): nat
    requires |p| >= HEADER
  {
    FromBe16(p[4..6])
  }

  function RecordCount(p: Bytes): nat
    requires |p| >= HEADER
  {
    FromBe16(p[6..8]) + FromBe16(p[8..10]) + FromBe16(p[10..12])
  }

  function Age(p: Bytes, s: int): (r: Bytes)
    ensures |r| == |p|
  {
    if |p| < HEADER then p
    else
      match QuestionsLength(p[HEADER..], QuestionCount(p))
      case None => p
      case Some(q) => p[..HEADER + q] + AgeRecords(p[HEADER + q..], RecordCount(p), s)
  }

  // ---- Ageing twice is ageing by the sum ------------------------------------------------------

  lemma Be32Periodic(v: int, k: int)
    ensures Be32(v + 0x1_0000_0000 * k) == Be32(v)
  {
    var w := v + 0x1_0000_0000 * k;
    DivUnique(w, 256, v / 256 + 256 * (0x1_0000 * k), v % 256);
    DivUnique(w, 0x1_0000, v / 0x1_0000 + 256 * (256 * k), v % 0x1_0000);
    DivUnique(w, 0x100_0000, v / 0x100_0000 + 256 * k, v % 0x100_0000);
    ModPeriodic(v / 256, 0x1_0000 * k);
    ModPeriodic(v / 0x1_0000, 256 * k);
    ModPeriodic(v / 0x100_0000, k);
  }

  lemma ModPeriodic(a: int, k: int)
    ensures (a + 256 * k) % 256 == a % 256
  {
  }

  lemma AgedTwice(ttl: Bytes, s1: int, s2: int)
    requires |ttl| == 4
    ensures Aged(Aged(ttl, s1), s2) == Aged(ttl, (s1 + s2) % 0x1_0000_0000)
  {
    var x := FromBe32(ttl);
    Be32RoundTrip(x - s1);
    var y := (x - s1) % 0x1_0000_0000;
    Be32Periodic(y - s2, (x - s1) / 0x1_0000_0000);
    Be32Periodic(x - (s1 + s2), (s1 + s2) / 0x1_0000_0000);
  }

  /** A name is determined by its own octets. */
  lemma {:induction false} NameLengthLocal(t: Bytes, u: Bytes, l: nat)
    requires NameLength(t) == Some(l) && |u| >= l && u[..l] == t[..l]
    ensures NameLength(u) == Some(l)
    decreases |t|
  {
    assert u[0] == u[..l][0] == t[..l][0] == t[0];
    if t[0] != 0 && t[0] < 0xc0 {
      var k := 1 + t[0];
      assert u[k..][..l - k] == u[..l][k..] && t[k..][..l - k] == t[..l][k..];
      NameLengthLocal(t[k..], u[k..], l - k);
    }
  }

  /** Changing the TTL octets, and anything behind them but the length, changes nothing about the walk. */
  lemma TtlAtLocal(t: Bytes, u: Bytes, ttl: nat)
    requires TtlAt(t) == Some(ttl) && |u| == |t| && u[..ttl] == t[..ttl]
    ensures TtlAt(u) == Some(ttl)
  {
    var l := ttl - 4;
    assert u[..l] == u[..ttl][..l] && t[..l] == t[..ttl][..l];
    NameLengthLocal(t, u, l);
    assert u[l..l + 2] == u[..ttl][l..l + 2] && t[l..l + 2] == t[..ttl][l..l + 2];
  }

  lemma NextAtLocal(t: Bytes, u: Bytes, ttl: nat)
    requires ttl + 4 <= |t| == |u|
    requires |t| >= ttl + 6 ==> u[ttl + 4] == t[ttl + 4] && u[ttl + 5] == t[ttl + 5]
    ensures NextAt(u, ttl) == NextAt(t, ttl)
  {
    if |t| >= ttl + 6 {
      assert u[ttl + 4..ttl + 6] == t[ttl + 4..ttl + 6];
    }
  }

  /** The four parts of an aged record: in front of the TTL, the TTL, up to the next record, the rest. */
  lemma AgeRecordsParts(t: Bytes, n: nat, s: int)
    requires n > 0 && TtlAt(t).Some?
    ensures var r, ttl := AgeRecords(t, n, s), TtlAt(t).value;
            && r[..ttl] == t[..ttl] && r[ttl..ttl + 4] == Aged(t[ttl..ttl + 4], s)
            && match NextAt(t, ttl)
               case None => r[ttl + 4..] == t[ttl + 4..]
               case Some(next) => r[ttl + 4..next] == t[ttl + 4..next] && r[next..] == AgeRecords(t[next..], n - 1, s)
  {
  }

  /** Ageing keeps where every TTL and every record is. */
  lemma {:induction false} AgeKeepsShape(t: Bytes, n: nat, s: int)
    requires n > 0 && TtlAt(t).Some?
    ensures var r, ttl := AgeRecords(t, n, s), TtlAt(t).value;
            TtlAt(r) == Some(ttl) && NextAt(r, ttl) == NextAt(t, ttl)
  {
    var r, ttl := AgeRecords(t, n, s), TtlAt(t).value;
    AgeRecordsParts(t, n, s);
    TtlAtLocal(t, r, ttl);
    if |t| >= ttl + 6 {
      match NextAt(t, ttl) {
        case None => assert r[ttl + 4..][0] == t[ttl + 4..][0] && r[ttl + 4..][1] == t[ttl + 4..][1];
        case Some(next) => assert r[ttl + 4..next][0] == t[ttl + 4..next][0] && r[ttl + 4..next][1] == t[ttl + 4..next][1];
      }
    }
    NextAtLocal(t, r, ttl);
  }

  lemma SplitAt(r: Bytes, u: Bytes, ttl: nat)
    requires |r| == |u| && ttl + 4 <= |r|
    requires r[..ttl] == u[..ttl] && r[ttl..ttl + 4] == u[ttl..ttl + 4] && r[ttl + 4..] == u[ttl + 4..]
    ensures r == u
  {
    assert r == r[..ttl] + r[ttl..ttl + 4] + r[ttl + 4..];
    assert u == u[..ttl] + u[ttl..ttl + 4] + u[ttl + 4..];
  }

  lemma {:induction false} AgeRecordsTwice(t: Bytes, n: nat, s1: int, s2: int)
    ensures AgeRecords(AgeRecords(t, n, s1), n, s2) == AgeRecords(t, n, (s1 + s2) % 0x1_0000_0000)
    decreases n
  {
    hide AgeRecords, TtlAt, NextAt, Aged;
    var s := (s1 + s2) % 0x1_0000_0000;
    var r := AgeRecords(t, n, s1);
    if n > 0 && TtlAt(t).Some? {
      var ttl, twice, once := TtlAt(t).value, AgeRecords(r, n, s2), AgeRecords(t, n, s);
      AgeRecordsParts(t, n, s1);
      AgeKeepsShape(t, n, s1);
      AgeRecordsParts(r, n, s2);
      AgeRecordsParts(t, n, s);
      AgedTwice(t[ttl..ttl + 4], s1, s2);
      if NextAt(t, ttl).Some? {
        var next := NextAt(t, ttl).value;
        AgeRecordsTwice(t[next..], n - 1, s1, s2);
        RejoinAt(twice, once, ttl, next);
      }
      SplitAt(twice, once, ttl);
    } else {
      AgeNothing(t, n, s1);
      AgeNothing(t, n, s2);
      AgeNothing(t, n, s);
    }
  }

  lemma {:induction false} AgeNothing(t: Bytes, n: nat, s: int)
    requires n == 0 || TtlAt(t).None?
    ensures AgeRecords(t, n, s) == t
  {
  }

  lemma RejoinAt(r: Bytes, u: Bytes, ttl: nat, next: nat)
    requires |r| == |u| && ttl + 4 <= next <= |r|
    requires r[ttl + 4..next] == u[ttl + 4..next] && r[next..] == u[next..]
    ensures r[ttl + 4..] == u[ttl + 4..]
  {
    assert r[ttl + 4..] == r[ttl + 4..next] + r[next..];
    assert u[ttl + 4..] == u[ttl + 4..next] + u[next..];
  }

  /** Ageing by s1 and then by s2 is ageing by the sum modulo 2^32, for every octet string. */
  lemma AgeComposes(p: Bytes, s1: int, s2: int)
    ensures Age(Age(p, s1), s2) == Age(p, (s1 + s2) % 0x1_0000_0000)
  {
    if |p| >= HEADER {
      var ql := QuestionsLength(p[HEADER..], QuestionCount(p));
      if ql.Some? {
        var q, r := ql.value, Age(p, s1);
        var k := HEADER + q;
        assert r[..k] == p[..k] && r[k..] == AgeRecords(p[k..], RecordCount(p), s1);
        HeaderLocal(p, r, k);
        assert r[HEADER..][..q] == r[..k][HEADER..] && p[HEADER..][..q] == p[..k][HEADER..];
        QuestionsLocal(p[HEADER..], r[HEADER..], QuestionCount(p), q);
        AgeRecordsTwice(p[k..], RecordCount(p), s1, s2);
      }
    }
  }

  lemma HeaderLocal(p: Bytes, r: Bytes, k: nat)
    requires HEADER <= k <= |p| == |r| && r[..k] == p[..k]
    ensures QuestionCount(r) == QuestionCount(p) && RecordCount(r) == RecordCount(p)
  {
    assert r[4..6] == r[..k][4..6] && p[4..6] == p[..k][4..6];
    assert r[6..8] == r[..k][6..8] && p[6..8] == p[..k][6..8];
    assert r[8..10] == r[..k][8..10] && p[8..10] == p[..k][8..10];
    assert r[10..12] == r[..k][10..12] && p[10..12] == p[..k][10..12];
  }

  lemma PrefixSlice(t: Bytes, u: Bytes, q: nat, a: nat)
    requires a <= q <= |t| && q <= |u| && u[..q] == t[..q]
    ensures u[..a] == t[..a] && u[a..][..q - a] == t[a..][..q - a]
  {
    assert u[..a] == u[..q][..a] && t[..a] == t[..q][..a];
    assert u[a..][..q - a] == u[..q][a..] && t[a..][..q - a] == t[..q][a..];
  }

  lemma QuestionsSplit(t: Bytes, n: nat, q: nat) returns (l: nat, at: nat)
    requires n > 0 && QuestionsLength(t, n) == Some(q)
    ensures at == l + 4 <= q <= |t| && NameLength(t) == Some(l) && QuestionsLength(t[at..], n - 1) == Some(q - at)
  {
    l := NameLength(t).value;
    at := l + 4;
  }

  lemma QuestionsJoin(t: Bytes, n: nat, l: nat, at: nat, q: nat)
    requires n > 0 && NameLength(t) == Some(l) && at == l + 4 <= q <= |t| && QuestionsLength(t[at..], n - 1) == Some(q - at)
    ensures QuestionsLength(t, n) == Some(q)
  {
  }

  lemma {:induction false} QuestionsLocal(t: Bytes, u: Bytes, n: nat, q: nat)
    requires QuestionsLength(t, n) == Some(q) && q <= |t| && |u| >= q && u[..q] == t[..q]
    ensures QuestionsLength(u, n) == Some(q)
    decreases n
  {
    if n > 0 {
      hide QuestionsLength, NameLength;
      var l, at := QuestionsSplit(t, n, q);
      PrefixSlice(t, u, q, l);
      NameLengthLocal(t, u, l);
      PrefixSlice(t, u, q, at);
      QuestionsLocal(t[at..], u[at..], n - 1, q - at);
      QuestionsJoin(u, n, l, at, q);
    }
  }

  // ---- Nothing but the TTLs before the first OPT record ---------------------------------------

  /** The TTL field that octet i of a record section belongs to: only fields of the first n records, and
      none from the first OPT record or malformed record on. */
  function TtlCovering(t: Bytes, n: nat, i: nat): (r: Option<nat>)
    ensures r.Some? ==> r.value <= i < r.value + 4 <= |t|
    decreases n
  {
    if n == 0 || TtlAt(t).None? then None
    else
      var ttl := TtlAt(t).value;
      if i < ttl + 4 then (if ttl <= i then Some(ttl) else None)
      else
        match NextAt(t, ttl)
        case None => None
        case Some(next) =>
          if i < next then None
          else
            match TtlCovering(t[next..], n - 1, i - next)
            case None => None
            case Some(o) => Some(o + next)
  }

  /** Octet i of an aged record section: decremented with its TTL, or untouched. */
  lemma {:induction false} AgeRecordsPointwise(t: Bytes, n: nat, s: int, i: nat)
    requires i < |t|
    ensures AgeRecords(t, n, s)[i] == match TtlCovering(t, n, i) case None => t[i] case Some(o) => Aged(t[o..o + 4], s)[i - o]
    decreases n
  {
    hide AgeRecords, TtlAt, NextAt, Aged;
    var r := AgeRecords(t, n, s);
    if n > 0 && TtlAt(t).Some? {
      var ttl := TtlAt(t).value;
      AgeRecordsParts(t, n, s);
      if i < ttl {
        assert r[i] == r[..ttl][i] == t[..ttl][i];
      } else if i < ttl + 4 {
        assert r[i] == r[ttl..ttl + 4][i - ttl];
      } else {
        match NextAt(t, ttl) {
          case None =>
            assert r[i] == r[ttl + 4..][i - ttl - 4] == t[ttl + 4..][i - ttl - 4];
          case Some(next) =>
            if i < next {
              assert r[i] == r[ttl + 4..next][i - ttl - 4] == t[ttl + 4..next][i - ttl - 4];
            } else {
              AgeRecordsPointwise(t[next..], n - 1, s, i - next);
              assert r[i] == r[next..][i - next];
              TailSlice(t, next, TtlCovering(t[next..], n - 1, i - next));
            }
        }
      }
    } else {
      AgeNothing(t, n, s);
    }
  }

  lemma TailSlice(t: Bytes, next: nat, c: Option<nat>)
    requires next <= |t| && (c.Some? ==> c.value + 4 <= |t| - next)
    ensures c.Some? ==> t[next..][c.value..c.value + 4] == t[c.value + next..c.value + next + 4]
  {
  }

  predicate Advances(t: Bytes) {
    TtlAt(t).Some? && NextAt(t, TtlAt(t).value).Some?
  }

  /** A record section aged record by record. */
  lemma AgeOneMore(t: Bytes, n: nat, s: int)
    requires n > 0
    ensures if Advances(t)
            then var next := NextAt(t, TtlAt(t).value).value;
                 var u := AgeRecords(t, 1, s);
                 u[next..] == t[next..] && AgeRecords(t, n, s) == u[..next] + AgeRecords(t[next..], n - 1, s)
            else AgeRecords(t, n, s) == AgeRecords(t, 1, s)
  {
  }

  lemma {:induction false} AgeSingle(t: Bytes, s: int)
    ensures AgeRecords(t, 1, s) == if TtlAt(t).None? then t
                                   else var ttl := TtlAt(t).value; t[..ttl] + Aged(t[ttl..ttl + 4], s) + t[ttl + 4..]
  {
  }

  // ---- In place -------------------------------------------------------------------------------

  /** A cursor over the packet that refuses to leave it. The offset moves only when there is room. */
  class PacketMangler {
    const packet: array<Byte>
    var offset: nat

    constructor (p: array<Byte>)
      requires p.Length >= HEADER
      ensures packet == p && offset == HEADER
    {
      packet := p;
      offset := HEADER;
    }

    /** ok is false where the original throws. */
    method MoveOffset(count: nat) returns (ok: bool)
      modifies this`offset
      ensures ok <==> old(offset) + count <= packet.Length
      ensures ok ==> offset == old(offset) + count
    {
      offset := offset + count;
      ok := offset <= packet.Length;
    }

    method Get16() returns (ok: bool, v: nat)
      modifies this`offset
      ensures ok <==> old(offset) + 2 <= packet.Length
      ensures ok ==> offset == old(offset) + 2 && v == FromBe16(packet[old(offset)..offset])
    {
      var p := offset;
      ok := MoveOffset(2);
      v := 0;
      if ok { v := FromBe16(packet[p..p + 2]); }
    }

    method SkipLabel() returns (ok: bool)
      requires offset <= packet.Length
      modifies this`offset
      ensures var l := NameLength(packet[old(offset)..]);
              (ok <==> l.Some?) && (ok ==> offset == old(offset) + l.value)
    {
      ghost var start := offset;
      while true
        invariant start <= offset <= packet.Length
        invariant NameLength(packet[start..]).Some? <==> NameLength(packet[offset..]).Some?
        invariant NameLength(packet[start..]).Some? ==>
                    start + NameLength(packet[start..]).value == offset + NameLength(packet[offset..]).value
        decreases packet.Length - offset
      {
        ghost var t := packet[offset..];
        var p := offset;
        ok := MoveOffset(1);
        if !ok { return; }
        var len := packet[p];
        assert len == t[0];
        if len == 0 {
          return true;
        }
        if len >= 0xc0 {
          ok := MoveOffset(1);
          return;
        }
        ok := MoveOffset(len);
        if !ok { return; }
        assert t[1 + len..] == packet[offset..];
      }
    }

    method SkipQuestions(n: nat) returns (ok: bool)
      requires offset <= packet.Length
      modifies this`offset
      ensures var l := QuestionsLength(packet[old(offset)..], n);
              (ok <==> l.Some?) && (ok ==> offset == old(offset) + l.value)
    {
      hide QuestionsLength, NameLength;
      ghost var start, whole := offset, QuestionsLength(packet[offset..], n);
      var i := 0;
      while i < n
        invariant i <= n && start <= offset <= packet.Length
        invariant whole == Moved(QuestionsLength(packet[offset..], n - i), offset - start)
      {
        ghost var t := packet[offset..];
        ghost var at := offset;
        QuestionsUnfold(t, n - i);
        ok := SkipLabel();
        if !ok { return; }
        ok := MoveOffset(4);
        if !ok { return; }
        assert t[offset - at..] == packet[offset..];
        i := i + 1;
      }
      NoQuestions(packet[offset..]);
      ok := true;
    }

    method DecreaseAndSkip32(s: Word32) returns (ok: bool)
      requires offset <= packet.Length
      modifies this`offset, packet
      ensures ok <==> old(offset) + 4 <= packet.Length
      ensures !ok ==> packet[..] == old(packet[..])
      ensures ok ==> offset == old(offset) + 4
                     && packet[..] == old(packet[..offset]) + Aged(old(packet[offset..offset + 4]), s) + old(packet[offset + 4..])
    {
      hide Aged;
      var p := offset;
      ok := MoveOffset(4);
      if !ok { return; }
      var b := Aged(packet[p..p + 4], s);
      ghost var was := packet[..];
      packet[p], packet[p + 1], packet[p + 2], packet[p + 3] := b[0], b[1], b[2], b[3];
      assert packet[..p] == was[..p] && packet[p..p + 4] == b && packet[p + 4..] == was[p + 4..];
      assert packet[..] == packet[..p] + packet[p..p + 4] + packet[p + 4..];
    }

    method SkipRData() returns (ok: bool)
      requires 4 <= offset <= packet.Length
      modifies this`offset
      ensures var next := NextAt(packet[..], old(offset) - 4);
              (ok <==> next.Some?) && (ok ==> offset == next.value)
    {
      ghost var p := packet[..];
      var o := offset;
      var toskip;
      ok, toskip := Get16();
      if !ok { return; }
      assert packet[o..o + 2] == p[o..o + 2];
      ok := MoveOffset(toskip);
    }

    /** The name, the type and the class of a record; ok is false when the loop is left or throws. */
    method SkipToTtl() returns (ok: bool)
      requires offset <= packet.Length
      modifies this`offset
      ensures ok ==> old(offset) + 4 < offset <= packet.Length
      ensures TtlAt(packet[old(offset)..]) == if ok && offset + 4 <= packet.Length then Some(offset - old(offset)) else None
    {
      ghost var o, t := offset, packet[offset..];
      ok := SkipLabel();
      if !ok { return; }
      ghost var l := offset - o;
      var dnstype, dnsclass;
      ok, dnstype := Get16();
      if !ok { return; }
      assert packet[o + l..o + l + 2] == t[l..l + 2];
      ok, dnsclass := Get16();
      ok := ok && dnstype != OPT;
    }

    /** The first record's TTL; ok is false when the loop is left or throws before it. */
    method AgeTtl(s: Word32) returns (ok: bool)
      requires offset <= packet.Length
      modifies this`offset, packet
      ensures ok <==> TtlAt(old(packet[offset..])).Some?
      ensures !ok ==> packet[..] == old(packet[..])
      ensures ok ==> var o, p, ttl := old(offset), old(packet[..]), TtlAt(old(packet[offset..])).value;
                     offset == o + ttl + 4 && packet[..] == p[..o + ttl] + Aged(p[o + ttl..o + ttl + 4], s) + p[o + ttl + 4..]
    {
      hide NameLength, Aged, TtlAt;
      ghost var p := packet[..];
      ok := SkipToTtl();
      if !ok { return; }
      assert packet[..] == p;
      ok := DecreaseAndSkip32(s);
    }

    /** One turn of the record loop: more is false when the loop is left or throws. */
    method AgeRecord(s: Word32) returns (more: bool)
      requires offset <= packet.Length
      modifies this`offset, packet
      ensures packet[..] == old(packet[..offset]) + AgeRecords(old(packet[offset..]), 1, s)
      ensures more <==> Advances(old(packet[offset..]))
      ensures more ==> offset == old(offset) + NextAt(old(packet[offset..]), TtlAt(old(packet[offset..])).value).value <= packet.Length
    {
      hide AgeRecords, NameLength, Aged, TtlAt, NextAt;
      ghost var o, p, t := offset, packet[..], packet[offset..];
      assert t == p[o..] && p[..o] + t == p;
      AgeSingle(t, s);
      var ok := AgeTtl(s);
      if !ok { return false; }
      ghost var ttl := TtlAt(t).value;
      Rebase(p, o, ttl, packet[..], Aged(p[o + ttl..o + ttl + 4], s));
      NextShift(p, o, ttl, packet[..]);
      more := SkipRData();
    }

    /** The record loop. */
    method AgeAll(numrecords: nat, s: Word32)
      requires offset <= packet.Length
      modifies this`offset, packet
      ensures packet[..] == old(packet[..offset]) + AgeRecords(old(packet[offset..]), numrecords, s)
    {
      hide AgeRecords, TtlAt, NextAt;
      var n := 0;
      ghost var whole := packet[..offset] + AgeRecords(packet[offset..], numrecords, s);
      while n < numrecords
        invariant n <= numrecords && offset <= packet.Length
        invariant whole == packet[..offset] + AgeRecords(packet[offset..], numrecords - n, s)
      {
        ghost var head, t := packet[..offset], packet[offset..];
        AgeOneMore(t, numrecords - n, s);
        var more := AgeRecord(s);
        if !more {
          return;
        }
        n := n + 1;
        ghost var next := NextAt(t, TtlAt(t).value).value;
        AgeStep(head, t, AgeRecords(t, 1, s), next, packet[..], offset, AgeRecords(t[next..], numrecords - n, s));
        assert packet[offset..] == packet[..][offset..] == t[next..] && packet[..offset] == packet[..][..offset];
      }
      AgeNothing(packet[offset..], 0, s);
      assert packet[..] == packet[..offset] + packet[offset..];
    }
  }

  function Moved(l: Option<nat>, distance: nat): Option<nat> {
    match l case None => None case Some(n) => Some(n + distance)
  }

  lemma {:induction false} QuestionsUnfold(t: Bytes, n: nat)
    requires n > 0
    ensures NameLength(t).None? ==> QuestionsLength(t, n).None?
    ensures NameLength(t).Some? && |t| < NameLength(t).value + 4 ==> QuestionsLength(t, n).None?
    ensures NameLength(t).Some? && NameLength(t).value + 4 <= |t| ==>
              QuestionsLength(t, n) == Moved(QuestionsLength(t[NameLength(t).value + 4..], n - 1), NameLength(t).value + 4)
  {
  }

  lemma {:induction false} NoQuestions(t: Bytes)
    ensures QuestionsLength(t, 0) == Some(0)
  {
  }

  /** The same edit seen from the start of the packet and from the start of the record. */
  lemma Rebase(p: Bytes, o: nat, ttl: nat, r: Bytes, b: Bytes)
    requires o + ttl + 4 <= |p| && |b| == 4
    requires r == p[..o + ttl] + b + p[o + ttl + 4..]
    ensures var t := p[o..];
            && p[o + ttl..o + ttl + 4] == t[ttl..ttl + 4]
            && r == p[..o] + (t[..ttl] + b + t[ttl + 4..])
  {
    var t := p[o..];
    assert t[..ttl] == p[o..o + ttl] && t[ttl + 4..] == p[o + ttl + 4..];
    assert p[..o + ttl] == p[..o] + p[o..o + ttl];
  }

  lemma NextShift(p: Bytes, o: nat, ttl: nat, r: Bytes)
    requires o + ttl + 4 <= |p| == |r| && r[o + ttl + 4..] == p[o + ttl + 4..]
    ensures var n, m := NextAt(r, o + ttl), NextAt(p[o..], ttl);
            (n.Some? <==> m.Some?) && (n.Some? ==> n.value == o + m.value)
  {
    var t := p[o..];
    if |p| >= o + ttl + 6 {
      assert r[o + ttl + 4..][..2] == p[o + ttl + 4..][..2];
      assert r[o + ttl + 4..o + ttl + 6] == r[o + ttl + 4..][..2] && t[ttl + 4..ttl + 6] == p[o + ttl + 4..][..2];
    }
  }

  /** ageDNSPacket: silently does nothing more when the packet turns out to be malformed. */
  method AgeDnsPacket(packet: array<Byte>, seconds: Word32)
    modifies packet
    ensures packet[..] == Age(old(packet[..]), seconds)
  {
    if packet.Length < HEADER {
      return;
    }
    ghost var p := packet[..];
    assert packet[4..6] == p[4..6] && packet[6..8] == p[6..8] && packet[8..10] == p[8..10] && packet[10..12] == p[10..12];
    var numrecords := FromBe16(packet[6..8]) + FromBe16(packet[8..10]) + FromBe16(packet[10..12]);
    var dpm := new PacketMangler(packet);
    assert packet[HEADER..] == p[HEADER..];
    var ok := dpm.SkipQuestions(FromBe16(packet[4..6]));
    if !ok {
      return;
    }
    dpm.AgeAll(numrecords, seconds);
  }

  lemma AgeStep(head: Bytes, t: Bytes, u: Bytes, next: nat, r: Bytes, at: nat, rest: Bytes)
    requires |t| == |u| && next <= |u| && r == head + u && at == |head| + next
    ensures head + (u[..next] + rest) == r[..at] + rest && r[at..] == u[next..]
  {
  }
}
