/** What the packet cache finds after an insert, and what a purge removes and leaves. */
module PacketCachePurge {
  import opened Octets
  import opened BackwardsOrder
  import opened PacketCache
  import opened Wrappers

  // ---- insert and get -------------------------------------------------------------------------

  lemma GetIs(m: seq<Entry>, k: Key, i: nat, now: nat)
    requires Ordered(m) && NoNul(k.qname) && i < |m| && SameKey(m[i].key, k)
    ensures GetEntry(m, k, now) == if m[i].ttd > now then Some(m[i].value) else None
  {
    hide KeyLess, Place;
    FoundIff(m, k, i);
  }

  lemma GetNone(m: seq<Entry>, k: Key, now: nat)
    requires Ordered(m) && NoNul(k.qname) && forall i :: 0 <= i < |m| ==> !SameKey(m[i].key, k)
    ensures GetEntry(m, k, now) == None
  {
    hide KeyLess, Place;
    if IsThere(m, k) {
      FoundIff(m, k, Place(m, k));
    }
  }

  lemma InsertKeeps(m: seq<Entry>, k: Key, value: Bytes, ttl: nat, now: nat)
    requires Ordered(m) && NoNul(k.qname)
    ensures Ordered(Insert(m, k, value, ttl, now))
  {
    if ttl != 0 {
      var val := Entry(k.(zoneID := -1), now + ttl, value);
      var p := Place(m, val.key);
      PlaceSplits(m, val.key);
      hide Place, KeyLess, NoNul, SameKey;
      var u := Insert(m, k, value, ttl, now);
      if IsThere(m, val.key) {
        KeyTotal(m[p].key, val.key);
        forall i, j | 0 <= i < j < |u| ensures KeyLess(u[i].key, u[j].key) {
          SameSortsAlike(m[p].key, val.key, m[i].key);
          SameSortsAlike(m[p].key, val.key, m[j].key);
        }
      } else {
        NotThere(m, val.key, p);
        forall i, j | 0 <= i < j < |u| ensures KeyLess(u[i].key, u[j].key) {
          InsertedAt(m, val, p, i);
          InsertedAt(m, val, p, j);
        }
        forall i | 0 <= i < |u| ensures NoNul(u[i].key.qname) {
          InsertedAt(m, val, p, i);
        }
      }
    }
  }

  /** What is not below a key that is not there is above it. */
  lemma {:induction false} NotThere(m: seq<Entry>, k: Key, p: nat)
    requires Ordered(m) && NoNul(k.qname) && p == Place(m, k) && !IsThere(m, k)
    ensures forall i :: p <= i < |m| ==> KeyLess(k, m[i].key)
  {
    hide Place, KeyLess, NoNul;
    forall i | p <= i < |m| ensures KeyLess(k, m[i].key) {
      if i > p {
        assert KeyLess(m[p].key, m[i].key);
        KeyTransitive(k, m[p].key, m[i].key);
      }
    }
  }

  lemma InsertFor(m: seq<Entry>, val: Entry, asked: Key, later: nat, p: nat, u: seq<Entry>)
    requires Ordered(u) && NoNul(asked.qname) && p <= |m| && SameKey(asked, val.key)
    requires (p < |m| && u == m[p := val]) || u == m[..p] + [val] + m[p..]
    ensures GetEntry(u, asked, later) == if later < val.ttd then Some(val.value) else None
  {
    hide Ordered, NoNul, GetEntry;
    assert u[p] == val;
    GetIs(u, asked, p, later);
  }

  lemma InsertOther(m: seq<Entry>, val: Entry, asked: Key, later: nat, p: nat, there: bool, u: seq<Entry>)
    requires Ordered(m) && Ordered(u) && NoNul(asked.qname) && p <= |m| && !SameKey(asked, val.key)
    requires there ==> p < |m| && SameKey(m[p].key, val.key)
    requires u == if there then m[p := val] else m[..p] + [val] + m[p..]
    ensures GetEntry(u, asked, later) == GetEntry(m, asked, later)
  {
    hide Ordered, NoNul, GetEntry;
    if i :| 0 <= i < |m| && SameKey(m[i].key, asked) {
      var j := if there || i < p then i else i + 1;
      if !there { InsertedAt(m, val, p, j); }
      GetIs(m, asked, i, later);
      GetIs(u, asked, j, later);
    } else {
      forall j | 0 <= j < |u| ensures !SameKey(u[j].key, asked) {
        if !there { InsertedAt(m, val, p, j); }
      }
      GetNone(m, asked, later);
      GetNone(u, asked, later);
    }
  }

  /** After an insert the key, in any case of its name and whatever the zone said, gives the value until it expires,
      and every other key gives what it gave before. */
  lemma InsertThenGet(m: seq<Entry>, k: Key, value: Bytes, ttl: nat, now: nat, asked: Key, later: nat)
    requires Ordered(m) && NoNul(k.qname) && NoNul(asked.qname)
    ensures GetEntry(Insert(m, k, value, ttl, now), asked, later) ==
            if ttl > 0 && SameKey(asked, k.(zoneID := -1)) then (if later < now + ttl then Some(value) else None)
            else GetEntry(m, asked, later)
  {
    hide Ordered, NoNul, GetEntry, Place, KeyLess, SameKey;
    InsertKeeps(m, k, value, ttl, now);
    if ttl != 0 {
      var val := Entry(k.(zoneID := -1), now + ttl, value);
      var p, u := Place(m, val.key), Insert(m, k, value, ttl, now);
      if IsThere(m, val.key) {
        FoundIff(m, val.key, p);
      }
      if SameKey(asked, val.key) {
        InsertFor(m, val, asked, later, p, u);
      } else {
        InsertOther(m, val, asked, later, p, IsThere(m, val.key), u);
      }
    }
  }

  datatype Op = InsertOp(k: Key, value: Bytes, ttl: nat, now: nat) | PurgeOp(matches: seq<Bytes>)

  function Apply(m: seq<Entry>, op: Op): seq<Entry> {
    match op
    case InsertOp(k, value, ttl, now) => Insert(m, k, value, ttl, now)
    case PurgeOp(matches) => Purge(m, matches).m
  }

  function Run(ops: seq<Op>): seq<Entry> {
    if ops == [] then [] else Apply(Run(ops[..|ops| - 1]), ops[|ops| - 1])
  }

  ghost predicate NoZones(m: seq<Entry>) {
    forall e :: e in m ==> e.key.zoneID == -1
  }

  lemma CutKeeps(m: seq<Entry>, lo: nat, hi: nat)
    requires lo <= hi <= |m|
    ensures Ordered(m) ==> Ordered(m[..lo] + m[hi..])
    ensures NoZones(m) ==> NoZones(m[..lo] + m[hi..])
  {
    hide KeyLess, NoNul;
    var u := m[..lo] + m[hi..];
    assert forall i :: 0 <= i < |u| ==> u[i] == if i < lo then m[i] else m[i + hi - lo];
  }

  lemma {:induction false} PurgeAllKeeps(p: Purged, matches: seq<Bytes>)
    requires Ordered(p.m) && NoZones(p.m)
    ensures Ordered(PurgeAll(p, matches).m) && NoZones(PurgeAll(p, matches).m)
  {
    hide Ordered, NoZones, NameStart, NameEnd, ZoneEnd;
    if matches != [] {
      PurgeAllKeeps(p, matches[..|matches| - 1]);
      var q, last := PurgeAll(p, matches[..|matches| - 1]), matches[|matches| - 1];
      if IsSuffixMatch(last) {
        var lo := NameStart(q.m, last[..|last| - 1]);
        CutKeeps(q.m, lo, ZoneEnd(q.m, lo, last[..|last| - 1]));
      } else {
        var lo, hi := NameStart(q.m, last), NameEnd(q.m, last);
        if lo <= hi {
          CutKeeps(q.m, lo, hi);
        }
      }
    }
  }

  lemma InsertHasNoZones(m: seq<Entry>, k: Key, value: Bytes, ttl: nat, now: nat)
    requires NoZones(m)
    ensures NoZones(Insert(m, k, value, ttl, now))
  {
    hide Place, KeyLess;
  }

  ghost predicate NamesOk(ops: seq<Op>) {
    forall i :: 0 <= i < |ops| && ops[i].InsertOp? ==> NoNul(ops[i].k.qname)
  }

  lemma {:induction false} RunKeeps(ops: seq<Op>)
    requires NamesOk(ops)
    ensures Ordered(Run(ops)) && NoZones(Run(ops))
  {
    hide Ordered, NoZones, PurgeAll, Insert;
    if ops == [] {
      EmptyOk();
    } else {
      var m := Run(ops[..|ops| - 1]);
      RunKeeps(ops[..|ops| - 1]);
      match ops[|ops| - 1]
      case InsertOp(k, value, ttl, now) =>
        InsertKeeps(m, k, value, ttl, now);
        InsertHasNoZones(m, k, value, ttl, now);
      case PurgeOp(matches) =>
        EmptyOk();
        if matches != [] {
          PurgeAllKeeps(Purged(m, 0), matches[1..]);
        }
    }
  }

  lemma EmptyOk()
    ensures Ordered([]) && NoZones([])
  {
  }

  /** What is inserted for a zone is never found for it: no history makes a lookup with a zone succeed. */
  lemma {:induction false} ZonesAreNeverFound(ops: seq<Op>, k: Key, now: nat)
    requires NamesOk(ops) && NoNul(k.qname) && k.zoneID != -1
    ensures GetEntry(Run(ops), k, now) == None
  {
    hide GetEntry, Ordered;
    RunKeeps(ops);
    GetNone(Run(ops), k, now);
  }

  // ---- purge of one name ----------------------------------------------------------------------

  ghost predicate NameSorted(m: seq<Entry>) {
    && (forall i :: 0 <= i < |m| ==> NoNul(m[i].key.qname))
    && forall i, j :: 0 <= i < j < |m| ==> !BackLess(m[j].key.qname, m[i].key.qname)
  }

  lemma OrderedIsNameSorted(m: seq<Entry>)
    requires Ordered(m)
    ensures NameSorted(m)
  {
    hide BackLess, NoNul;
    forall i, j | 0 <= i < j < |m| ensures !BackLess(m[j].key.qname, m[i].key.qname) {
      assert KeyLess(m[i].key, m[j].key);
      StrictWeakOrder(m[i].key.qname, m[j].key.qname, m[i].key.qname);
    }
  }

  /** Not less goes along with less. */
  lemma NotLessTransitive(a: Bytes, b: Bytes, c: Bytes)
    requires NoNul(a) && NoNul(b) && NoNul(c) && !BackLess(b, a) && !BackLess(c, b)
    ensures !BackLess(c, a)
  {
    StrictWeakOrder(a, b, c);
    StrictWeakOrder(c, a, b);
    StrictWeakOrder(b, c, a);
    if !BackLess(a, b) {
      SameNameSortsAlike(a, b, c);
    }
    hide BackLess;
  }

  lemma {:induction false} StartSplits(m: seq<Entry>, name: Bytes)
    requires NameSorted(m) && NoNul(name)
    ensures forall i :: 0 <= i < |m| ==> (i < NameStart(m, name) <==> BackLess(m[i].key.qname, name))
  {
    hide BackLess, NoNul;
    if m != [] {
      var tail := m[1..];
      assert forall i :: 0 <= i < |tail| ==> tail[i] == m[i + 1];
      StartSplits(tail, name);
      forall i | 0 <= i < |m| ensures i < NameStart(m, name) <==> BackLess(m[i].key.qname, name) {
        if i > 0 {
          assert m[i] == tail[i - 1];
          if !BackLess(m[0].key.qname, name) {
            NotLessTransitive(name, m[0].key.qname, m[i].key.qname);
          }
        }
      }
    }
  }

  lemma {:induction false} EndSplits(m: seq<Entry>, name: Bytes)
    requires NameSorted(m) && NoNul(name)
    ensures forall i :: 0 <= i < |m| ==> (i < NameEnd(m, name) <==> !BackLess(name, m[i].key.qname))
  {
    hide BackLess, NoNul;
    if m != [] {
      var tail := m[1..];
      assert forall i :: 0 <= i < |tail| ==> tail[i] == m[i + 1];
      EndSplits(tail, name);
      forall i | 0 <= i < |m| ensures i < NameEnd(m, name) <==> !BackLess(name, m[i].key.qname) {
        if i > 0 {
          assert m[i] == tail[i - 1];
          if !BackLess(name, m[i].key.qname) {
            NotLessTransitive(m[0].key.qname, m[i].key.qname, name);
          }
        }
      }
    }
  }

  lemma {:induction false} NameRangeIs(m: seq<Entry>, name: Bytes)
    requires NameSorted(m) && NoNul(name)
    ensures NameStart(m, name) <= NameEnd(m, name)
    ensures forall i :: 0 <= i < |m| ==>
              (NameStart(m, name) <= i < NameEnd(m, name) <==> Lower(m[i].key.qname) == Lower(name))
  {
    StartSplits(m, name);
    EndSplits(m, name);
    var lo, hi := NameStart(m, name), NameEnd(m, name);
    hide BackLess, NameStart, NameEnd, NoNul;
    forall i | 0 <= i < |m| ensures lo <= i < hi <==> Lower(m[i].key.qname) == Lower(name) {
      StrictWeakOrder(m[i].key.qname, name, name);
    }
    if lo > hi {
      StrictWeakOrder(m[hi].key.qname, name, name);
    }
  }

  lemma CutHas(m: seq<Entry>, lo: nat, hi: nat, e: Entry)
    requires lo <= hi <= |m|
    ensures e in m[..lo] + m[hi..] <==> exists i :: 0 <= i < |m| && !(lo <= i < hi) && m[i] == e
  {
    if i :| 0 <= i < |m| && !(lo <= i < hi) && m[i] == e {
      assert (m[..lo] + m[hi..])[if i < lo then i else i - hi + lo] == e;
    }
  }

  /** A plain match removes exactly the entries with that name, in any case. */
  lemma PurgeNameIs(m: seq<Entry>, name: Bytes, e: Entry)
    requires Ordered(m) && NoNul(name)
    ensures e in PurgeName(m, name) <==> e in m && Lower(e.key.qname) != Lower(name)
  {
    OrderedIsNameSorted(m);
    NameRangeIs(m, name);
    hide NameStart, NameEnd, Ordered, NameSorted;
    CutHas(m, NameStart(m, name), NameEnd(m, name), e);
  }

  // ---- purge of a suffix ----------------------------------------------------------------------

  lemma {:induction false} ZoneEndIs(m: seq<Entry>, from: nat, suffix: Bytes)
    requires from <= |m|
    ensures var p := ZoneEnd(m, from, suffix);
            && (forall i :: from <= i < p ==> InZone(m[i].key.qname, suffix))
            && (p < |m| ==> !InZone(m[p].key.qname, suffix))
    decreases |m| - from
  {
    hide InZone;
    if from < |m| && InZone(m[from].key.qname, suffix) {
      ZoneEndIs(m, from + 1, suffix);
    }
  }

  /** A suffix purge removes only names in the zone. */
  lemma SuffixOnlyZone(m: seq<Entry>, suffix: Bytes, e: Entry)
    ensures e in PurgeSuffix(m, suffix) ==> e in m
    ensures e in m && !InZone(e.key.qname, suffix) ==> e in PurgeSuffix(m, suffix)
  {
    hide InZone, NameStart;
    var lo := NameStart(m, suffix);
    var hi := ZoneEnd(m, lo, suffix);
    ZoneEndIs(m, lo, suffix);
    if e in m && !InZone(e.key.qname, suffix) {
      var i :| 0 <= i < |m| && m[i] == e;
      assert i < lo ==> m[..lo][i] == e;
      assert hi <= i ==> m[hi..][i - hi] == e;
    }
  }

  /** Nothing of the zone is left. */
  ghost predicate Complete(m: seq<Entry>, suffix: Bytes) {
    forall e :: e in PurgeSuffix(m, suffix) ==> !InZone(e.key.qname, suffix)
  }

  ghost predicate HasBlocker(m: seq<Entry>, suffix: Bytes) {
    exists i :: 0 <= i < |m| && Blocks(m[i].key.qname, suffix)
  }

  ghost predicate HasBelow(m: seq<Entry>, suffix: Bytes) {
    exists i :: 0 <= i < |m| && IEndsWith(m[i].key.qname, [DOT] + suffix)
  }

  /** A name in the zone does not sort before the suffix. */
  lemma ZoneNotBefore(name: Bytes, suffix: Bytes)
    requires NoNul(name) && NoNul(suffix) && InZone(name, suffix)
    ensures !BackLess(name, suffix)
  {
    InZoneIsPrefix(name, suffix);
    BackNoNul(name);
    BackNoNul(suffix);
    PrefixNotLess(Back(suffix), Back(name));
  }

  lemma {:induction false} PrefixNotLess(p: Bytes, x: Bytes)
    requires NoNul(p) && NoNul(x) && (x == p || p + [DOT] <= x)
    ensures !TermLess(x, p)
  {
    if p != [] {
      assert x[0] == p[0];
      TailNoNul(p);
      TailNoNul(x);
      assert p[1..] + [DOT] == (p + [DOT])[1..];
      PrefixNotLess(p[1..], x[1..]);
    }
  }

  /** Between the suffix and a name in its zone is only the zone, unless there is one that blocks. */
  lemma BetweenIsZone(suffix: Bytes, x: Bytes, y: Bytes)
    requires NoNul(suffix) && NoNul(x) && NoNul(y) && InZone(y, suffix)
    requires !BackLess(x, suffix) && !BackLess(y, x)
    ensures InZone(x, suffix) || (Blocks(x, suffix) && IEndsWith(y, [DOT] + suffix))
  {
    InZoneIsPrefix(y, suffix);
    InZoneIsPrefix(x, suffix);
    BlocksIsPrefix(x, suffix);
    BackNoNul(suffix);
    BackNoNul(x);
    BackNoNul(y);
    if Back(suffix) + [DOT] <= Back(y) {
      BetweenBack(Back(suffix), Back(x), Back(y));
      EndsWithIsPrefix(y, [DOT] + suffix);
      DotInFront(suffix);
    } else {
      TermTotal(Back(x), Back(suffix));
    }
  }

  lemma DotInFront(suffix: Bytes)
    ensures Back([DOT] + suffix) == Back(suffix) + [DOT]
  {
  }

  /** One that blocks sorts behind the suffix and before every name below it. */
  lemma BlockerSorts(suffix: Bytes, x: Bytes, y: Bytes)
    requires NoNul(suffix) && NoNul(x) && NoNul(y) && Blocks(x, suffix) && IEndsWith(y, [DOT] + suffix)
    ensures !BackLess(x, suffix) && !InZone(x, suffix) && BackLess(x, y)
  {
    BackNoNul(suffix);
    BackNoNul(x);
    BackNoNul(y);
    BlocksIsPrefix(x, suffix);
    InZoneIsPrefix(x, suffix);
    EndsWithIsPrefix(y, [DOT] + suffix);
    DotInFront(suffix);
    BlocksSorts(Back(suffix), Back(x), Back(y));
    TermTotal(Back(x), Back(suffix));
  }

  /** A suffix purge removes all of the zone exactly when there is not both a name in the cache that ends in the suffix
      with something in front of it that sorts before a dot, and a name below the suffix. */
  lemma SuffixCompleteIff(m: seq<Entry>, suffix: Bytes)
    requires Ordered(m) && NoNul(suffix)
    ensures Complete(m, suffix) <==> !(HasBlocker(m, suffix) && HasBelow(m, suffix))
  {
    OrderedIsNameSorted(m);
    StartSplits(m, suffix);
    var lo := NameStart(m, suffix);
    var hi := ZoneEnd(m, lo, suffix);
    ZoneEndIs(m, lo, suffix);
    hide BackLess, InZone, Blocks, IEndsWith, NoNul, NameStart, ZoneEnd, Ordered, NameSorted;
    if HasBlocker(m, suffix) && HasBelow(m, suffix) {
      var i :| 0 <= i < |m| && Blocks(m[i].key.qname, suffix);
      var j :| 0 <= j < |m| && IEndsWith(m[j].key.qname, [DOT] + suffix);
      StoppedBefore(m, suffix, lo, hi, i, j);
    } else {
      forall e | e in PurgeSuffix(m, suffix) ensures !InZone(e.key.qname, suffix) {
        LeftOutside(m, suffix, lo, hi, e);
      }
    }
  }

  lemma LeftOutside(m: seq<Entry>, suffix: Bytes, lo: nat, hi: nat, e: Entry)
    requires NameSorted(m) && NoNul(suffix) && lo <= hi <= |m| && e in m[..lo] + m[hi..]
    requires forall k :: 0 <= k < |m| ==> (k < lo <==> BackLess(m[k].key.qname, suffix))
    requires hi < |m| ==> !InZone(m[hi].key.qname, suffix)
    requires !(HasBlocker(m, suffix) && HasBelow(m, suffix))
    ensures !InZone(e.key.qname, suffix)
  {
    hide BackLess, InZone, NameSorted, HasBlocker, HasBelow;
    CutHas(m, lo, hi, e);
    var i :| 0 <= i < |m| && !(lo <= i < hi) && m[i] == e;
    if InZone(e.key.qname, suffix) {
      ReachesAll(m, suffix, lo, hi, i);
    }
  }

  lemma StoppedBefore(m: seq<Entry>, suffix: Bytes, lo: nat, hi: nat, i: nat, j: nat)
    requires NameSorted(m) && NoNul(suffix) && lo <= hi <= |m| && i < |m| && j < |m|
    requires forall k :: 0 <= k < |m| ==> (k < lo <==> BackLess(m[k].key.qname, suffix))
    requires forall k :: lo <= k < hi ==> InZone(m[k].key.qname, suffix)
    requires Blocks(m[i].key.qname, suffix) && IEndsWith(m[j].key.qname, [DOT] + suffix)
    ensures m[j] in m[..lo] + m[hi..] && InZone(m[j].key.qname, suffix)
  {
    BlockerSorts(suffix, m[i].key.qname, m[j].key.qname);
    hide BackLess, Blocks, IEndsWith;
    assert lo <= i && hi <= i;
    assert i < j;
    assert (m[..lo] + m[hi..])[lo + j - hi] == m[j];
  }

  lemma ReachesAll(m: seq<Entry>, suffix: Bytes, lo: nat, hi: nat, j: nat)
    requires NameSorted(m) && NoNul(suffix) && lo <= hi <= |m| && j < |m|
    requires forall k :: 0 <= k < |m| ==> (k < lo <==> BackLess(m[k].key.qname, suffix))
    requires hi < |m| ==> !InZone(m[hi].key.qname, suffix)
    requires InZone(m[j].key.qname, suffix) && !(HasBlocker(m, suffix) && HasBelow(m, suffix))
    ensures lo <= j < hi
  {
    hide BackLess, InZone, Blocks, IEndsWith, NoNul;
    ZoneNotBefore(m[j].key.qname, suffix);
    if hi <= j {
      BetweenIsZone(suffix, m[hi].key.qname, m[j].key.qname);
    }
  }

  // ---- What purge says it removed -------------------------------------------------------------

  /** How many matches there are up to the last plain one. */
  function ToLastPlain(matches: seq<Bytes>): (k: nat)
    ensures k <= |matches|
    ensures k > 0 ==> !IsSuffixMatch(matches[k - 1])
    ensures forall i :: k <= i < |matches| ==> IsSuffixMatch(matches[i])
  {
    if matches == [] then 0
    else if IsSuffixMatch(matches[|matches| - 1]) then ToLastPlain(matches[..|matches| - 1])
    else |matches|
  }

  /** What is left when the last plain match is about to be done. */
  function BeforeLastPlain(m: seq<Entry>, matches: seq<Bytes>): seq<Entry> {
    var k := ToLastPlain(matches);
    if k == 0 then m else PurgeAll(Purged(m, 0), matches[..k - 1]).m
  }

  /** A cut that removes nothing by number removes nothing. */
  lemma CutOfNothing(m: seq<Entry>, match': Bytes)
    ensures |PurgeOne(Purged(m, 0), match').m| == |m| ==> PurgeOne(Purged(m, 0), match').m == m
  {
    hide NameStart, NameEnd, ZoneEnd;
  }

  lemma OneIgnoresCount(p: Purged, match': Bytes)
    ensures PurgeOne(p, match').m == PurgeOne(Purged(p.m, 0), match').m
    ensures |PurgeOne(p, match').m| <= |p.m|
    ensures PurgeOne(p, match').delcount == (if IsSuffixMatch(match') then p.delcount else 0) + |p.m| - |PurgeOne(p, match').m|
  {
    hide PurgeSuffix, PurgeName;
  }

  lemma {:induction false} PurgeAllShrinks(p: Purged, matches: seq<Bytes>)
    ensures |PurgeAll(p, matches).m| <= |p.m|
    ensures |PurgeAll(p, matches).m| == |p.m| ==> PurgeAll(p, matches).m == p.m
  {
    hide PurgeOne;
    if matches != [] {
      var q, last := PurgeAll(p, matches[..|matches| - 1]), matches[|matches| - 1];
      PurgeAllShrinks(p, matches[..|matches| - 1]);
      OneIgnoresCount(q, last);
      CutOfNothing(q.m, last);
    }
  }

  /** The count says what has gone since the last plain match was about to be done. */
  lemma {:induction false} CountIsSince(m: seq<Entry>, matches: seq<Bytes>)
    ensures var r := PurgeAll(Purged(m, 0), matches); r.delcount == |BeforeLastPlain(m, matches)| - |r.m|
  {
    hide PurgeOne, IsSuffixMatch;
    if matches != [] {
      var init, last := matches[..|matches| - 1], matches[|matches| - 1];
      OneIgnoresCount(PurgeAll(Purged(m, 0), init), last);
      if IsSuffixMatch(last) {
        CountIsSince(m, init);
        var k := ToLastPlain(init);
        if k > 0 { assert init[..k - 1] == matches[..k - 1]; }
      }
    }
  }

  /** The count that purge returns is the number of entries that went exactly when no match is plain, or the
      matches before the last plain one removed nothing; the first match is the name of the command. */
  lemma {:induction false} CountIsRightIff(m: seq<Entry>, matches: seq<Bytes>)
    ensures Purge(m, matches).delcount == |m| - |Purge(m, matches).m|
        <==> matches == [] || ToLastPlain(matches[1..]) == 0 || BeforeLastPlain(m, matches[1..]) == m
  {
    hide PurgeAll;
    if matches != [] {
      var k := ToLastPlain(matches[1..]);
      CountIsSince(m, matches[1..]);
      if k > 0 { PurgeAllShrinks(Purged(m, 0), matches[1..][..k - 1]); }
    }
  }

  // ---- The same over the names that are cached --------------------------------------------------

  ghost predicate HasName(m: seq<Entry>, name: Bytes) {
    exists i :: 0 <= i < |m| && Lower(m[i].key.qname) == Lower(name)
  }

  function Suffix(match': Bytes): Bytes
    requires IsSuffixMatch(match')
  {
    match'[..|match'| - 1]
  }

  /** By the names in the cache a match has nothing to remove: a plain one when its name is not there, one for a
      suffix when the suffix is not there and no name below it either, or one that blocks. */
  ghost predicate Misses(m: seq<Entry>, match': Bytes) {
    if IsSuffixMatch(match')
    then !HasName(m, Suffix(match')) && (HasBelow(m, Suffix(match')) ==> HasBlocker(m, Suffix(match')))
    else !HasName(m, match')
  }

  lemma {:induction false} NameMissesIff(m: seq<Entry>, name: Bytes)
    requires Ordered(m) && NoNul(name)
    ensures |PurgeName(m, name)| == |m| <==> !HasName(m, name)
  {
    OrderedIsNameSorted(m);
    NameRangeIs(m, name);
    hide NameStart, NameEnd, Ordered, NameSorted, NoNul;
    var lo, hi := NameStart(m, name), NameEnd(m, name);
    if lo < hi {
      assert Lower(m[lo].key.qname) == Lower(name);
    }
  }

  /** The first name that is not before a suffix, when it is not in the zone, has the suffix in front of it or
      ends in it. */
  lemma {:induction false} SuffixMissesIff(m: seq<Entry>, suffix: Bytes)
    requires Ordered(m) && NoNul(suffix)
    ensures |PurgeSuffix(m, suffix)| == |m| <==>
            !HasName(m, suffix) && (HasBelow(m, suffix) ==> HasBlocker(m, suffix))
  {
    OrderedIsNameSorted(m);
    StartSplits(m, suffix);
    var lo := NameStart(m, suffix);
    var hi := ZoneEnd(m, lo, suffix);
    ZoneEndIs(m, lo, suffix);
    hide BackLess, Blocks, IEndsWith, NoNul, NameStart, ZoneEnd, Ordered;
    if lo < hi {
      FirstInZone(m, suffix, lo);
    } else {
      ZoneIsBlocked(m, suffix, lo);
    }
  }

  /** With a name of the zone first, the suffix itself is there, or a name below it and none that blocks. */
  lemma {:induction false} FirstInZone(m: seq<Entry>, suffix: Bytes, lo: nat)
    requires NameSorted(m) && NoNul(suffix) && lo < |m| && InZone(m[lo].key.qname, suffix)
    requires forall k :: 0 <= k < |m| ==> (k < lo <==> BackLess(m[k].key.qname, suffix))
    ensures HasName(m, suffix) || (HasBelow(m, suffix) && !HasBlocker(m, suffix))
  {
    hide BackLess, Blocks, IEndsWith, NoNul;
    if !HasName(m, suffix) {
      assert IEndsWith(m[lo].key.qname, [DOT] + suffix);
      forall i | 0 <= i < |m| ensures !Blocks(m[i].key.qname, suffix) {
        if Blocks(m[i].key.qname, suffix) {
          BlockerSorts(suffix, m[i].key.qname, m[lo].key.qname);
        }
      }
    }
  }

  /** With none of the zone first, the suffix is not there, and a name below it only behind one that blocks. */
  lemma {:induction false} ZoneIsBlocked(m: seq<Entry>, suffix: Bytes, lo: nat)
    requires NameSorted(m) && NoNul(suffix) && lo <= |m| && (lo < |m| ==> !InZone(m[lo].key.qname, suffix))
    requires forall k :: 0 <= k < |m| ==> (k < lo <==> BackLess(m[k].key.qname, suffix))
    ensures !HasName(m, suffix) && (HasBelow(m, suffix) ==> HasBlocker(m, suffix))
  {
    hide BackLess, Blocks, IEndsWith, NoNul;
    if HasName(m, suffix) {
      var i :| 0 <= i < |m| && Lower(m[i].key.qname) == Lower(suffix);
      ZoneNotBefore(m[i].key.qname, suffix);
      if lo < i { SameNameSortsAlike(m[i].key.qname, suffix, m[lo].key.qname); }
      TieIsTheName(m[lo].key.qname, m[i].key.qname, suffix, lo, i);
    }
    if HasBelow(m, suffix) {
      var j :| 0 <= j < |m| && IEndsWith(m[j].key.qname, [DOT] + suffix);
      ZoneNotBefore(m[j].key.qname, suffix);
      BetweenIsZone(suffix, m[lo].key.qname, m[j].key.qname);
    }
  }

  /** What is neither before a suffix nor behind a name equal to it is that name. */
  lemma {:induction false} TieIsTheName(x: Bytes, y: Bytes, suffix: Bytes, lo: nat, i: nat)
    requires NoNul(x) && NoNul(suffix) && Lower(y) == Lower(suffix) && lo <= i && (lo == i ==> x == y)
    requires !BackLess(x, suffix) && (lo < i ==> !BackLess(y, x))
    ensures Lower(x) == Lower(suffix)
  {
    SameNameSortsAlike(y, suffix, x);
    StrictWeakOrder(x, suffix, x);
  }

  ghost predicate NamesNoNul(matches: seq<Bytes>) {
    forall i :: 0 <= i < |matches| ==> NoNul(matches[i])
  }

  lemma {:induction false} MissesIff(m: seq<Entry>, match': Bytes, count: nat)
    requires Ordered(m) && NoNul(match')
    ensures PurgeOne(Purged(m, count), match').m == m <==> Misses(m, match')
  {
    OneIgnoresCount(Purged(m, count), match');
    CutOfNothing(m, match');
    hide PurgeSuffix, PurgeName, Ordered, HasName, HasBelow, HasBlocker;
    if IsSuffixMatch(match') {
      SuffixMissesIff(m, Suffix(match'));
    } else {
      NameMissesIff(m, match');
    }
  }

  /** Matches leave the cache as it is exactly when each of them misses. */
  lemma {:induction false} AllMissIff(m: seq<Entry>, matches: seq<Bytes>)
    requires Ordered(m) && NamesNoNul(matches)
    ensures PurgeAll(Purged(m, 0), matches).m == m <==> forall i :: 0 <= i < |matches| ==> Misses(m, matches[i])
  {
    hide PurgeOne, Ordered, NoNul, Misses;
    if matches != [] {
      var init, last := matches[..|matches| - 1], matches[|matches| - 1];
      AllMissIff(m, init);
      var p := PurgeAll(Purged(m, 0), init);
      PurgeAllShrinks(Purged(m, 0), init);
      OneIgnoresCount(p, last);
      MissesIff(m, last, p.delcount);
      assert forall i :: 0 <= i < |init| ==> matches[i] == init[i];
      if p.m != m {
        var i :| 0 <= i < |init| && !Misses(m, init[i]);
        assert !Misses(m, matches[i]);
      }
    }
  }

  /** By the names cached at the start: the count that purge returns is the number of entries that went exactly
      when every match before the last plain one misses. */
  lemma {:induction false} CountIsRightByNames(m: seq<Entry>, matches: seq<Bytes>)
    requires Ordered(m) && NamesNoNul(matches)
    ensures Purge(m, matches).delcount == |m| - |Purge(m, matches).m|
        <==> matches == [] || forall i :: 1 <= i < ToLastPlain(matches[1..]) ==> Misses(m, matches[i])
  {
    CountIsRightIff(m, matches);
    hide Purge, PurgeAll, Ordered, Misses, NoNul;
    if matches != [] {
      var ms := matches[1..];
      var k := ToLastPlain(ms);
      if k > 0 {
        var before := ms[..k - 1];
        assert forall i :: 0 <= i < k - 1 ==> before[i] == matches[i + 1];
        AllMissIff(m, before);
        assert (forall i :: 1 <= i < k ==> Misses(m, matches[i])) <==> forall i :: 0 <= i < k - 1 ==> Misses(m, before[i]) by {
          Shifted(m, matches, before, k);
        }
      }
    }
  }

  lemma Shifted(m: seq<Entry>, matches: seq<Bytes>, before: seq<Bytes>, k: nat)
    requires 0 < k < |matches| && before == matches[1..][..k - 1]
    ensures (forall i :: 1 <= i < k ==> Misses(m, matches[i])) <==> forall i :: 0 <= i < k - 1 ==> Misses(m, before[i])
  {
    hide Misses;
    forall i | 1 <= i < k ensures before[i - 1] == matches[i] {
    }
    if forall i :: 0 <= i < k - 1 ==> Misses(m, before[i]) {
      forall i | 1 <= i < k ensures Misses(m, matches[i]) {
        assert Misses(m, before[i - 1]);
      }
    }
  }

  const ALPHA: Bytes := [97]
  const BETA: Bytes := [98]

  function Named(name: Bytes): Entry {
    Entry(Key(name, 1, 0, -1, false), 0, [])
  }

  lemma {:induction false} AlphaFirst()
    ensures BackLess(ALPHA, BETA) && !BackLess(BETA, ALPHA) && !BackLess(ALPHA, ALPHA) && !BackLess(BETA, BETA)
  {
    assert Back(ALPHA) == [97] && Back(BETA) == [98];
    assert [97][1..] == [] && [98][1..] == [];
  }

  lemma {:induction false} PurgeFirst(m: seq<Entry>, name: Bytes)
    requires m != [] && m[0].key.qname == name && !BackLess(name, name)
    requires |m| > 1 ==> BackLess(name, m[1].key.qname)
    ensures PurgeName(m, name) == m[1..]
  {
    hide BackLess;
    assert NameStart(m, name) == 0;
    assert |m| > 1 ==> m[1..][0] == m[1];
    assert NameEnd(m[1..], name) == 0;
  }

  lemma {:induction false} PurgeTwo(p: Purged, a: Bytes, b: Bytes)
    ensures PurgeAll(p, [a, b]) == PurgeOne(PurgeOne(p, a), b)
  {
    hide PurgeOne;
    assert [a, b][..1] == [a] && [a][..0] == [];
    assert PurgeAll(p, []) == p;
  }

  /** Two names are cached and purged; the count is one. */
  lemma {:induction false} CountForgets()
    ensures Purge([Named(ALPHA), Named(BETA)], [[], ALPHA, BETA]) == Purged([], 1)
  {
    var m := [Named(ALPHA), Named(BETA)];
    AlphaFirst();
    PurgeFirst(m, ALPHA);
    assert m[1..] == [Named(BETA)];
    PurgeFirst(m[1..], BETA);
    hide BackLess, PurgeName, PurgeAll;
    PurgeTwo(Purged(m, 0), ALPHA, BETA);
    assert [[], ALPHA, BETA][1..] == [ALPHA, BETA];
  }
}
