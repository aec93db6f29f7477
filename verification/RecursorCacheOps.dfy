/** The record cache's methods, with their loops and their search by halving. */
module RecursorCacheOps {
  import opened Octets
  import opened RecordVector
  import opened RecursorEntry
  import opened CachePruning
  import opened RecursorCache
  import opened RecursorCacheRuns
  import opened RecursorCacheHistory

  // ---- One entry ------------------------------------------------------------------------------

  /** Stores one record in a sorted vector: the copies of it, found by halving, are updated one by one. */
  method StoreRecord(records: seq<Record>, i: Record, qtype: nat, n: News) returns (rs: seq<Record>)
    requires Sorted(records)
    ensures rs == StoreOne(records, i, qtype, n)
  {
    var lo, hi := EqualRange(records, i.data);
    rs := records;
    if lo == hi {
      return Sort(rs + [i]);
    }
    assert records[lo].data == i.data;
    for j := lo to hi
      invariant |rs| == |records|
      invariant forall k :: 0 <= k < |rs| ==>
                  rs[k] == if lo <= k < j then Again(records[k], i, qtype, n) else records[k]
    {
      if rs[j].ttd > n.now % U32 && i.ttd > rs[j].ttd && qtype == NS && n.auth {
        continue;
      }
      if i.ttd > rs[j].ttd || (n.auth && n.followRFC2181) {
        rs := rs[j := rs[j].(ttd := i.ttd)];
      }
    }
    assert forall k :: 0 <= k < |rs| ==> rs[k] == Again(records[k], i, qtype, n);
  }

  method AttemptToRefreshNSTTL(qtype: nat, content: seq<Record>, stored: Entry) returns (r: bool)
    requires qtype == stored.qtype
    ensures r == Refresh(stored, content)
  {
    if !stored.auth || qtype != NS || |content| != |stored.records| || |stored.records| == 0 {
      return false;
    }
    r := !(stored.records[0].ttd > content[0].ttd);
  }

  method HasLive(rs: seq<Record>, now: nat) returns (r: bool)
    ensures r == AnyLive(rs, now)
  {
    for j := 0 to |rs|
      invariant forall k :: 0 <= k < j ==> rs[k].ttd <= now
    {
      if rs[j].ttd > now {
        return true;
      }
    }
    r := false;
  }

  /** replace on the entry; the vector must be sorted for the search. */
  method ReplaceEntry(stored: Entry, new': bool, n: News) returns (ce: Entry)
    requires Sorted(stored.records)
    ensures ce == Replaced(stored, new', n)
  {
    var isNew := new';
    ce := stored;
    if ce.qtype == SOA || ce.qtype == CNAME {
      ce := ce.(records := []);
    }
    if !n.auth && ce.auth {
      var live := HasLive(ce.records, n.now);
      if live {
        return stored;
      }
      ce := ce.(auth := false);
    }
    var refresh := false;
    if n.auth {
      refresh := AttemptToRefreshNSTTL(ce.qtype, n.content, ce);
      if !refresh {
        ce := ce.(records := [], auth := true);
        isNew := true;
      }
    }
    var rs := StoreContent(ce.records, isNew, ce.qtype, n);
    if isNew {
      rs := Sort(rs);
    }
    ce := ce.(records := rs);
    assert [] + n.content == n.content;
  }

  method StoreContent(records: seq<Record>, isNew: bool, qtype: nat, n: News) returns (rs: seq<Record>)
    requires Sorted(records)
    ensures rs == if isNew then records + n.content else StoreAll(records, n.content, qtype, n)
  {
    var content := n.content;
    rs := records;
    hide StoreAll, StoreOne;
    StoreAllNone(records, qtype, n);
    for i := 0 to |content|
      invariant rs == if isNew then records + content[..i] else StoreAll(records, content[..i], qtype, n)
    {
      assert content[..i + 1][..i] == content[..i] && content[..i + 1][i] == content[i];
      if isNew {
        rs := rs + [content[i]];
      } else {
        StoreAllSorts(records, content[..i], qtype, n);
        StoreAllSnoc(records, content, i, qtype, n);
        rs := StoreRecord(rs, content[i], qtype, n);
      }
    }
    assert content[..|content|] == content;
  }

  lemma {:induction false} StoreAllNone(rs: seq<Record>, qtype: nat, n: News)
    ensures StoreAll(rs, [], qtype, n) == rs
  {
  }

  lemma {:induction false} StoreAllSnoc(rs: seq<Record>, content: seq<Record>, i: nat, qtype: nat, n: News)
    requires i < |content|
    ensures StoreAll(rs, content[..i + 1], qtype, n) == StoreOne(StoreAll(rs, content[..i], qtype, n), content[i], qtype, n)
  {
    assert content[..i + 1][..i] == content[..i];
  }

  // ---- The cache ------------------------------------------------------------------------------

  class MemRecursorCache {
    var cache: seq<Entry>
    var sidx: seq<Key>
    var followRFC2181: bool

    /** The range looked up last, and for what name. */
    var cachecachevalid: bool
    var cachedqname: Bytes
    var first: nat
    var last: nat

    ghost function State(): Cache
      reads this
    {
      Cache(cache, sidx, cachecachevalid, cachedqname, first, last)
    }

    constructor ()
      ensures State() == EMPTY && !followRFC2181
    {
      cache, sidx, followRFC2181 := [], [], false;
      cachecachevalid, cachedqname, first, last := false, [], 0, 0;
    }

    method Get(now: nat, qname: Bytes, qt: nat, want: bool) returns (left: int, found: set<Found>)
      requires Inv(State())
      modifies this`sidx, this`cachecachevalid, this`cachedqname, this`first, this`last
      ensures RecursorCache.Get(old(State()), now, qname, qt, want) == Got(State(), left, found)
    {
      hide NameStart, NameEnd, Collect, RelocateAll;
      var same := false;
      if cachecachevalid {
        same := IEquals(cachedqname, qname);
      }
      if !same {
        cachedqname := qname;
        first, last := NameStart(cache, qname), NameEnd(cache, qname);
        cachecachevalid := true;
      }
      assert State() == Remember(old(State()), qname);
      if first == last {
        return -1, {};
      }
      RangeIsExact(cache, cachedqname);
      var h := Walk(now, qt);
      left := ToInt32(ToInt32(h.ttd) - now);
      found := {};
      if want {
        sidx := RelocateAll(sidx, h.moves);
        found := h.found;
      }
    }

    /** The loop over the remembered range. */
    method Walk(now: nat, qt: nat) returns (h: Hits)
      requires first <= last <= |cache|
      ensures h == Collect(cache, first, last, qt, now, Hits({}, 0, []))
    {
      h := Hits({}, 0, []);
      var i := first;
      while i != last
        invariant first <= i <= last
        invariant Collect(cache, i, last, qt, now, h) == Collect(cache, first, last, qt, now, Hits({}, 0, []))
        decreases last - i
      {
        if Matches(cache[i].qtype, qt) {
          h := TakeRecords(cache[i], now, h);
          if qt != ANY && qt != ADDR {
            return;
          }
        }
        i := i + 1;
      }
    }

    static method TakeRecords(e: Entry, now: nat, before: Hits) returns (h: Hits)
      ensures h == Collected(e, now, before)
    {
      var rs := e.records;
      var found, ttd := before.found, before.ttd;
      for k := 0 to |rs|
        invariant found == before.found + AliveIn(e.qtype, rs[..k], now)
        invariant LastAlive(rs[k..], now, ttd) == LastAlive(rs, now, before.ttd)
      {
        AliveSnoc(e.qtype, rs, k, now);
        assert rs[k..][0] == rs[k] && rs[k..][1..] == rs[k + 1..];
        if rs[k].ttd < 1_000_000_000 || rs[k].ttd > now % U32 {
          ttd := rs[k].ttd;
          found := found + {Found(e.qtype, rs[k].data, ttd)};
        }
      }
      assert rs[..|rs|] == rs;
      h := Hits(found, ttd, before.moves + [Move(KeyOf(e), found == {})]);
    }

    method Replace(now: nat, qname: Bytes, qt: nat, content: seq<Record>, auth: bool)
      requires Inv(State())
      modifies this`cache, this`sidx, this`cachecachevalid
      ensures State() == Store(old(State()), qname, qt, News(now, content, auth, followRFC2181))
    {
      hide Find, Place, Replaced, Ordered;
      cachecachevalid := false;
      var n := News(now, content, auth, followRFC2181);
      var i := Find(cache, qname, qt);
      if i < |cache| {
        var ce := ReplaceEntry(cache[i], false, n);
        cache := cache[i := ce];
      } else {
        var p := Place(cache, qname, qt);
        var e := ReplaceEntry(Entry(qname, qt, auth, []), true, n);
        cache := cache[..p] + [e] + cache[p..];
        sidx := sidx + [Key(Lower(qname), qt)];
      }
    }

    /** How many entries went. */
    method DoWipeCache(name: Bytes, qtype: nat) returns (count: nat)
      requires Inv(State())
      modifies this`cache, this`sidx, this`cachecachevalid
      ensures State() == Wiped(old(State()), name, qtype) && count == |old(cache)| - |cache|
    {
      RangeIsExact(cache, name);
      hide Find, NameStart, NameEnd;
      cachecachevalid := false;
      if qtype == ALL_TYPES {
        var lo, hi := NameStart(cache, name), NameEnd(cache, name);
        count := hi - lo;
        cache := cache[..lo] + cache[hi..];
        sidx := DropName(sidx, Lower(name));
      } else {
        var i := Find(cache, name, qtype);
        count := 0;
        if i < |cache| {
          count := 1;
          cache := cache[..i] + cache[i + 1..];
          sidx := RemoveKey(sidx, Key(Lower(name), qtype));
        }
      }
    }

    method DoAgeCache(now: nat, name: Bytes, qtype: nat, newTTL: int) returns (aged: bool)
      modifies this`cache, this`cachecachevalid
      ensures State() == Aged(old(State()), now, name, qtype, newTTL)
      ensures aged == Ages(old(State()), now, name, qtype, newTTL)
    {
      hide Find;
      var i := Find(cache, name, qtype);
      if i == |cache| {
        return false;
      }
      var ttl := TimeLeft(cache[i], now);
      if ttl < 0 || ttl <= newTTL {
        return false;
      }
      cachecachevalid := false;
      var rs := SetAll(cache[i].records, (now + newTTL) % U32);
      cache := cache[i := cache[i].(records := rs)];
      aged := true;
    }

    static method SetAll(records: seq<Record>, newTTD: nat) returns (rs: seq<Record>)
      ensures rs == SetTimes(records, newTTD)
    {
      rs := records;
      for j := 0 to |records|
        invariant |rs| == |records|
        invariant forall k :: 0 <= k < |rs| ==> rs[k] == if k < j then records[k].(ttd := newTTD) else records[k]
      {
        rs := rs[j := rs[j].(ttd := newTTD)];
      }
    }

    method DoPrune(now: nat, maxCached: nat)
      modifies this`cache, this`sidx, this`cachecachevalid
      ensures State() == PruneTo(old(State()), now, maxCached)
    {
      cachecachevalid := false;
      var collection := new Collection();
      collection.sidx := Items(cache, sidx);
      collection.Prune(now % U32, maxCached, 1000);
      sidx := Keys(collection.sidx);
      cache := KeepIn(cache, sidx);
    }
  }

  lemma AliveSnoc(qtype: nat, rs: seq<Record>, k: nat, now: nat)
    requires k < |rs|
    ensures AliveIn(qtype, rs[..k + 1], now) ==
            AliveIn(qtype, rs[..k], now) + if Alive(rs[k], now) then {Found(qtype, rs[k].data, rs[k].ttd)} else {}
  {
    var a, b := rs[..k], rs[..k + 1];
    assert forall i :: 0 <= i < k ==> b[i] == a[i];
    assert b[k] == rs[k];
    forall x ensures x in AliveIn(qtype, b, now) <==>
                     x in AliveIn(qtype, a, now) || (Alive(rs[k], now) && x == Found(qtype, rs[k].data, rs[k].ttd)) {
      if x in AliveIn(qtype, a, now) {
        var i :| 0 <= i < k && Alive(a[i], now) && x == Found(qtype, a[i].data, a[i].ttd);
        assert Alive(b[i], now);
      }
    }
  }
}
