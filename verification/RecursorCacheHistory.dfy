/** The record cache over any history of its operations. */
module RecursorCacheHistory {
  import opened Octets
  import opened ByteOrder
  import opened RecordVector
  import opened RecursorEntry
  import opened CachePruning
  import opened RecursorCache
  import opened RecursorCacheRuns
  import opened Wrappers

  lemma StoreKeeps(c: Cache, name: Bytes, qt: nat, n: News)
    requires Inv(c)
    ensures Inv(Store(c, name, qt, n))
  {
    hide Ordered, AllSorted, Known, Replaced;
    var i := Find(c.index, name, qt);
    if i < |c.index| {
      var e := c.index[i];
      SortedAt(c.index, i);
      ReplacedSorts(e, false, n);
      SameKey(e, false, n);
      UpdateKeeps(c.index, i, Replaced(e, false, n));
    } else {
      var e := Entry(name, qt, n.auth, []);
      ReplacedSorts(e, true, n);
      SameKey(e, true, n);
      var e' := Replaced(e, true, n);
      InsertKeeps(c.index, e');
      var p := Place(c.index, name, qt);
      forall k ensures Known(c.index[..p] + [e'] + c.index[p..], k) <==> Known(c.index, k) || k == KeyOf(e') {
        InsertKnown(c.index, e', p, k);
      }
      NotKnown(c.index, name, qt);
      NoDupBack(c.queue, KeyOf(e'));
    }
  }

  lemma SortedAt(ix: seq<Entry>, i: nat)
    requires AllSorted(ix) && i < |ix|
    ensures Sorted(ix[i].records)
  {
  }

  lemma SameKey(e: Entry, isNew: bool, n: News)
    ensures Replaced(e, isNew, n).qname == e.qname && Replaced(e, isNew, n).qtype == e.qtype
  {
  }

  lemma {:induction false} NotKnown(ix: seq<Entry>, name: Bytes, qt: nat)
    requires Find(ix, name, qt) == |ix|
    ensures !Known(ix, Key(Lower(name), qt))
  {
    assert forall i :: 0 <= i < |ix| ==> !HasKey(ix[i], name, qt);
  }

  lemma NoDupBack(queue: seq<Key>, k: Key)
    requires NoDup(queue) && k !in queue
    ensures NoDup(queue + [k])
  {
  }

  lemma WipeKeeps(c: Cache, name: Bytes, qtype: nat)
    requires Inv(c)
    ensures Inv(Wiped(c, name, qtype))
  {
    var ix := c.index;
    if qtype == ALL_TYPES {
      RangeIsExact(ix, name);
      var lo, hi := NameStart(ix, name), NameEnd(ix, name);
      hide NameStart, NameEnd, Ordered, AllSorted;
      RemoveKeeps(ix, lo, hi);
      DropNameKeeps(c.queue, Lower(name));
      forall k ensures Known(ix[..lo] + ix[hi..], k) <==> Known(ix, k) && k.name != Lower(name) {
        RemoveKnown(ix, lo, hi, k);
        RangeKnown(ix, lo, hi, name, k);
      }
    } else {
      var i := Find(ix, name, qtype);
      hide Find, Ordered, AllSorted;
      if i < |ix| {
        var key := Key(Lower(name), qtype);
        RemoveKeeps(ix, i, i + 1);
        RemoveKeyKeeps(c.queue, key);
        forall k ensures Known(ix[..i] + ix[i + 1..], k) <==> Known(ix, k) && k != key {
          RemoveKnown(ix, i, i + 1, k);
          assert ix[i..i + 1] == [ix[i]] && KeyOf(ix[i]) == key;
          KnownOne(ix[i], k);
          InMiddle(ix, i, i + 1, i);
        }
      }
    }
  }

  lemma KnownOne(e: Entry, k: Key)
    ensures Known([e], k) <==> k == KeyOf(e)
  {
    assert [e][0] == e;
  }

  lemma RangeKnown(ix: seq<Entry>, lo: nat, hi: nat, name: Bytes, k: Key)
    requires lo <= hi <= |ix|
    requires forall i :: 0 <= i < |ix| ==> (lo <= i < hi <==> SameName(ix[i].qname, name))
    ensures Known(ix, k) ==> (Known(ix[lo..hi], k) <==> k.name == Lower(name))
  {
    if Known(ix, k) {
      var j :| 0 <= j < |ix| && KeyOf(ix[j]) == k;
      InMiddle(ix, lo, hi, j);
      if Known(ix[lo..hi], k) {
        var m :| 0 <= m < hi - lo && KeyOf(ix[lo..hi][m]) == k;
        assert ix[lo..hi][m] == ix[lo + m];
      }
    }
  }

  lemma AgeKeeps(c: Cache, now: nat, name: Bytes, qtype: nat, newTTL: int)
    requires Inv(c)
    ensures Inv(Aged(c, now, name, qtype, newTTL))
  {
    hide Ordered, AllSorted, Known;
    if Ages(c, now, name, qtype, newTTL) {
      var i := Find(c.index, name, qtype);
      var rs := c.index[i].records;
      SortedAt(c.index, i);
      assert Sorted(SetTimes(rs, (now + newTTL) % U32));
      UpdateKeeps(c.index, i, c.index[i].(records := SetTimes(rs, (now + newTTL) % U32)));
    }
  }

  // ---- Pruning --------------------------------------------------------------------------------

  ghost predicate Distinct(items: seq<Item>) {
    forall i, j :: 0 <= i < j < |items| ==> !(items[i].name == items[j].name && items[i].qtype == items[j].qtype)
  }

  lemma {:induction false} FreshDistinct(items: seq<Item>, now: nat)
    requires Distinct(items)
    ensures Distinct(Fresh(items, now))
  {
    if items != [] {
      var tail := items[1..];
      assert forall i :: 0 <= i < |tail| ==> tail[i] == items[i + 1];
      FreshDistinct(tail, now);
      if items[0].ttd >= now {
        var rest := Fresh(tail, now);
        forall j | 0 <= j < |rest| ensures !(items[0].name == rest[j].name && items[0].qtype == rest[j].qtype) {
          FreshIn(tail, now, rest[j]);
        }
      }
    }
  }

  lemma PrunedDistinct(items: seq<Item>, now: nat, maxCached: nat)
    requires Distinct(items)
    ensures Distinct(Pruned(items, now, maxCached, 1000))
  {
    hide Fresh, Scan, LookAt;
    var toTrim := ToTrim(|items|, maxCached);
    var n := ScanRemoves(items, now, toTrim, LookAt(|items|, toTrim, 1000), 0);
    var front := items[..n];
    FreshDistinct(front, now);
    var left := Fresh(front, now) + items[n..];
    forall i, j | 0 <= i < j < |left| ensures !(left[i].name == left[j].name && left[i].qtype == left[j].qtype) {
      LeftDistinct(items, n, now, i, j);
    }
  }

  lemma {:induction false} LeftDistinct(items: seq<Item>, n: nat, now: nat, i: nat, j: nat)
    requires Distinct(items) && n <= |items| && Distinct(Fresh(items[..n], now))
    requires i < j < |Fresh(items[..n], now) + items[n..]|
    ensures var left := Fresh(items[..n], now) + items[n..];
            !(left[i].name == left[j].name && left[i].qtype == left[j].qtype)
  {
    var kept := Fresh(items[..n], now);
    if i < |kept| <= j {
      FreshIn(items[..n], now, kept[i]);
      var m :| 0 <= m < n && items[..n][m] == kept[i];
      assert items[m] == kept[i] && items[n + j - |kept|] == (kept + items[n..])[j];
    } else if |kept| <= i {
      assert (kept + items[n..])[i] == items[n + i - |kept|] && (kept + items[n..])[j] == items[n + j - |kept|];
    }
  }

  lemma {:induction false} KeepInIs(ix: seq<Entry>, queue: seq<Key>, x: Entry)
    ensures x in KeepIn(ix, queue) <==> x in ix && KeyOf(x) in queue
  {
    if ix != [] {
      KeepInIs(ix[1..], queue, x);
      assert ix == [ix[0]] + ix[1..];
    }
  }

  lemma {:induction false} KeepInKeeps(ix: seq<Entry>, queue: seq<Key>)
    requires IndexOk(ix)
    ensures IndexOk(KeepIn(ix, queue))
  {
    if ix != [] {
      var tail := ix[1..];
      assert forall i :: 0 <= i < |tail| ==> tail[i] == ix[i + 1];
      KeepInKeeps(tail, queue);
      var kept := KeepIn(tail, queue);
      if KeyOf(ix[0]) in queue {
        forall j | 0 <= j < |kept| ensures KeyLess(ix[0], kept[j].qname, kept[j].qtype) {
          KeepInIs(tail, queue, kept[j]);
        }
        assert Sorted(ix[0].records);
        OrderedCons(ix[0], kept);
      }
    }
  }

  lemma OrderedCons(e: Entry, ix: seq<Entry>)
    requires IndexOk(ix) && Sorted(e.records) && forall j :: 0 <= j < |ix| ==> KeyLess(e, ix[j].qname, ix[j].qtype)
    ensures IndexOk([e] + ix)
  {
    hide KeyLess, Sorted;
    assert forall i :: 1 <= i < |[e] + ix| ==> ([e] + ix)[i] == ix[i - 1];
  }

  lemma {:induction false} KeepInKnown(ix: seq<Entry>, queue: seq<Key>, k: Key)
    ensures Known(KeepIn(ix, queue), k) <==> Known(ix, k) && k in queue
  {
    if Known(ix, k) && k in queue {
      var i :| 0 <= i < |ix| && KeyOf(ix[i]) == k;
      KeepInIs(ix, queue, ix[i]);
      var j :| 0 <= j < |KeepIn(ix, queue)| && KeepIn(ix, queue)[j] == ix[i];
      assert KeyOf(KeepIn(ix, queue)[j]) == k;
    }
    if Known(KeepIn(ix, queue), k) {
      var j :| 0 <= j < |KeepIn(ix, queue)| && KeyOf(KeepIn(ix, queue)[j]) == k;
      KeepInIs(ix, queue, KeepIn(ix, queue)[j]);
    }
  }

  lemma ItemsDistinct(ix: seq<Entry>, queue: seq<Key>)
    requires NoDup(queue)
    ensures Distinct(Items(ix, queue))
  {
    var items := Items(ix, queue);
    forall i, j | 0 <= i < j < |items| ensures !(items[i].name == items[j].name && items[i].qtype == items[j].qtype) {
      assert queue[i] != queue[j];
    }
  }

  lemma PruneKeeps(c: Cache, now: nat, maxCached: nat)
    requires Inv(c)
    ensures Inv(PruneTo(c, now, maxCached))
    ensures forall k :: k in PruneTo(c, now, maxCached).queue ==> k in c.queue
  {
    hide Pruned, Find, Ordered, AllSorted, Known;
    var items := Items(c.index, c.queue);
    ItemsDistinct(c.index, c.queue);
    PrunedDistinct(items, now % U32, maxCached);
    var left := Pruned(items, now % U32, maxCached, 1000);
    var queue := Keys(left);
    assert NoDup(queue);
    forall k | k in queue ensures k in c.queue {
      var i :| 0 <= i < |queue| && queue[i] == k;
      PrunedIn(items, now % U32, maxCached, 1000, left[i]);
      var j :| 0 <= j < |items| && items[j] == left[i];
      assert c.queue[j] == k;
    }
    KeepInKeeps(c.index, queue);
    forall k ensures Known(KeepIn(c.index, queue), k) <==> k in queue {
      KeepInKnown(c.index, queue, k);
    }
  }

  // ---- Any history ----------------------------------------------------------------------------

  datatype Op =
    | GetOp(now: nat, name: Bytes, qt: nat, want: bool)
    | ReplaceOp(name: Bytes, qt: nat, news: News)
    | WipeOp(name: Bytes, qtype: nat)
    | AgeOp(now: nat, name: Bytes, qtype: nat, newTTL: int)
    | PruneOp(now: nat, maxCached: nat)

  function Apply(c: Cache, op: Op): Cache {
    match op
    case GetOp(now, name, qt, want) => Get(c, now, name, qt, want).c
    case ReplaceOp(name, qt, news) => Store(c, name, qt, news)
    case WipeOp(name, qtype) => Wiped(c, name, qtype)
    case AgeOp(now, name, qtype, newTTL) => Aged(c, now, name, qtype, newTTL)
    case PruneOp(now, maxCached) => PruneTo(c, now, maxCached)
  }

  function Run(c: Cache, ops: seq<Op>): Cache {
    if ops == [] then c else Apply(Run(c, ops[..|ops| - 1]), ops[|ops| - 1])
  }

  lemma {:induction false} RunKeeps(ops: seq<Op>)
    ensures Inv(Run(EMPTY, ops))
  {
    hide Inv;
    if ops == [] {
      EmptyOk();
    } else {
      hide Apply;
      RunKeeps(ops[..|ops| - 1]);
      OpKeeps(Run(EMPTY, ops[..|ops| - 1]), ops[|ops| - 1]);
    }
  }

  lemma {:induction false} OpKeeps(c: Cache, op: Op)
    requires Inv(c)
    ensures Inv(Apply(c, op))
  {
    hide Inv, Get, Store, Wiped, Aged, PruneTo;
    match op
    case GetOp(now, name, qt, want) => GetKeeps(c, now, name, qt, want);
    case ReplaceOp(name, qt, news) => StoreKeeps(c, name, qt, news);
    case WipeOp(name, qtype) => WipeKeeps(c, name, qtype);
    case AgeOp(now, name, qtype, newTTL) => AgeKeeps(c, now, name, qtype, newTTL);
    case PruneOp(now, maxCached) => PruneKeeps(c, now, maxCached);
  }

  lemma EmptyOk()
    ensures Inv(EMPTY)
  {
  }

  /** After any history: get answers with exactly the live records of the matching types under the name whatever its
      case, through the remembered range or not; and every stored vector is sorted. */
  lemma {:induction false} AfterAnyHistory(ops: seq<Op>, now: nat, name: Bytes, qt: nat, x: Found)
    ensures var c := Run(EMPTY, ops);
            && (x in Get(c, now, name, qt, true).found <==> Answers(c.index, name, qt, now, x))
            && Get(c, now, name, qt, true).left == Get(c.(valid := false), now, name, qt, true).left
            && forall i :: 0 <= i < |c.index| ==> Sorted(c.index[i].records)
  {
    hide Get, Answers;
    RunKeeps(ops);
    GetFinds(Run(EMPTY, ops), now, name, qt, x);
    GetIsFresh(Run(EMPTY, ops), now, name, qt, true);
  }

  // ---- Trust over any history -----------------------------------------------------------------

  /** Storing under a key that is there replaces that entry and no other. */
  lemma {:induction false} StoreAtKey(c: Cache, name: Bytes, qt: nat, n: News)
    requires Inv(c) && Find(c.index, name, qt) < |c.index|
    ensures var i := Find(c.index, name, qt);
            var c' := Store(c, name, qt, n);
            && Find(c'.index, name, qt) == i < |c'.index| && c'.index[i] == Replaced(c.index[i], false, n)
            && (forall k :: 0 <= k < |c.index| && k != i ==> c'.index[k] == c.index[k])
  {
    hide Replaced, Sorted;
    var i, c' := Find(c.index, name, qt), Store(c, name, qt, n);
    SameKey(c.index[i], false, n);
    StoreKeeps(c, name, qt, n);
    EntryFound(c'.index, name, qt, i);
  }

  /** The entry with a key is the one that is found. */
  lemma {:induction false} EntryFound(ix: seq<Entry>, name: Bytes, qt: nat, i: nat)
    requires Ordered(ix) && i < |ix| && HasKey(ix[i], name, qt)
    ensures Find(ix, name, qt) == i
  {
    var f := Find(ix, name, qt);
    if f < i {
      KeysDiffer(ix, f, i);
    }
  }

  /** Data without authority for an authoritative CNAME or SOA entry, after any history: the entry holds the data
      sent and nothing else. */
  lemma {:induction false} CnameOverwrittenInCache(ops: seq<Op>, name: Bytes, qt: nat, n: News)
    requires var c := Run(EMPTY, ops);
             var i := Find(c.index, name, qt);
             i < |c.index| && c.index[i].auth && OnlyOne(qt) && !n.auth
    ensures var c' := Store(Run(EMPTY, ops), name, qt, n);
            var i := Find(c'.index, name, qt);
            && i < |c'.index| && !c'.index[i].auth && Sorted(c'.index[i].records) && NoTwins(c'.index[i].records)
            && forall x :: x in c'.index[i].records <==> Has(n.content, x.data) && x.ttd == Latest(n.content, x.data)
  {
    hide Run;
    var c := Run(EMPTY, ops);
    RunKeeps(ops);
    StoreAtKey(c, name, qt, n);
    CnameOverwritten(c.index[Find(c.index, name, qt)], n);
  }

  /** Name servers that an authority refreshes, after any history: no stored record goes, and none that is live gets a
      later time of expiry. */
  lemma {:induction false} RefreshKeepsInCache(ops: seq<Op>, name: Bytes, n: News, r: Record)
    requires var c := Run(EMPTY, ops);
             var i := Find(c.index, name, NS);
             i < |c.index| && r in c.index[i].records && n.auth && Refresh(c.index[i], n.content) && NoTwins(n.content)
    ensures var c' := Store(Run(EMPTY, ops), name, NS, n);
            var i := Find(c'.index, name, NS);
            && i < |c'.index| && c'.index[i].auth
            && exists f :: f in c'.index[i].records && f.data == r.data && (r.ttd > n.now % U32 ==> f.ttd <= r.ttd)
  {
    hide Run;
    var c := Run(EMPTY, ops);
    RunKeeps(ops);
    StoreAtKey(c, name, NS, n);
    RefreshKeeps(c.index[Find(c.index, name, NS)], n, r);
  }

  /** Lookups, and data without authority that comes in before a given time. */
  predicate Harmless(op: Op, until: nat) {
    op.GetOp? || (op.ReplaceOp? && !op.news.auth && op.news.now < until)
  }

  predicate AllHarmless(ops: seq<Op>, until: nat) {
    forall k :: 0 <= k < |ops| ==> Harmless(ops[k], until)
  }

  /** An authoritative entry that is trusted until then. */
  predicate Trusted(e: Entry, until: nat) {
    e.auth && !OnlyOne(e.qtype) && exists k :: 0 <= k < |e.records| && e.records[k].ttd >= until
  }

  lemma StoreHarmless(c: Cache, name: Bytes, qt: nat, n: News, e: Entry, until: nat)
    requires Inv(c) && e in c.index && Trusted(e, until) && !n.auth && n.now < until
    ensures e in Store(c, name, qt, n).index
  {
    var i := Find(c.index, name, qt);
    var j :| 0 <= j < |c.index| && c.index[j] == e;
    hide Replaced;
    if i < |c.index| {
      StoreAtKey(c, name, qt, n);
      if i == j {
        UnauthIgnoredIff(e, false, n);
      }
      assert Store(c, name, qt, n).index[j] == e;
    } else {
      var p := Place(c.index, name, qt);
      InsertedAt(c.index, Replaced(Entry(name, qt, n.auth, []), true, n), p, if j < p then j else j + 1);
      assert Store(c, name, qt, n).index[if j < p then j else j + 1] == e;
    }
  }

  lemma {:induction false} HarmlessKeeps(c: Cache, ops: seq<Op>, e: Entry, until: nat)
    requires Inv(c) && e in c.index && Trusted(e, until) && AllHarmless(ops, until)
    ensures Inv(Run(c, ops)) && e in Run(c, ops).index
  {
    hide Inv, Trusted;
    if ops != [] {
      var front, op := ops[..|ops| - 1], ops[|ops| - 1];
      assert Harmless(op, until);
      HarmlessKeeps(c, front, e, until);
      var d := Run(c, front);
      match op
      case GetOp(now, name, qt, want) =>
        GetKeeps(d, now, name, qt, want);
      case ReplaceOp(name, qt, news) =>
        StoreKeeps(d, name, qt, news);
        StoreHarmless(d, name, qt, news, e, until);
    }
  }

  /** An authoritative entry that is no CNAME or SOA is safe for as long as one of its records lives: after any history
      and then any number of lookups and of data without authority, for this name and for others and coming in before
      that record expires, the entry is the same and get still answers its live records. */
  lemma {:induction false} TrustAfterAnyHistory(ops: seq<Op>, more: seq<Op>, name: Bytes, qt: nat, until: nat, now: nat, ask: nat, x: Found)
    requires var c := Run(EMPTY, ops);
             var i := Find(c.index, name, qt);
             && i < |c.index| && Trusted(c.index[i], until) && AllHarmless(more, until)
             && Matches(qt, ask) && x in AliveIn(qt, c.index[i].records, now)
    ensures var c, d := Run(EMPTY, ops), Run(Run(EMPTY, ops), more);
            var j := Find(d.index, name, qt);
            && j < |d.index| && d.index[j] == c.index[Find(c.index, name, qt)]
            && x in Get(d, now, name, ask, true).found
  {
    hide Run, Trusted, AllHarmless, Get;
    var c := Run(EMPTY, ops);
    var d, e := Run(c, more), c.index[Find(c.index, name, qt)];
    RunKeeps(ops);
    HarmlessKeeps(c, more, e, until);
    var j :| 0 <= j < |d.index| && d.index[j] == e;
    EntryFound(d.index, name, qt, j);
    var k :| 0 <= k < |e.records| && Alive(e.records[k], now) && x == Found(qt, e.records[k].data, e.records[k].ttd);
    assert IsAnswer(d.index[j], d.index[j].records[k], name, ask, now, x);
    GetFinds(d, now, name, ask, x);
  }

  // ---- Sizes ----------------------------------------------------------------------------------

  function KeySet(queue: seq<Key>): set<Key> {
    set k | k in queue
  }

  lemma {:induction false} KeySetSize(queue: seq<Key>)
    requires NoDup(queue)
    ensures |KeySet(queue)| == |queue|
  {
    if queue != [] {
      NoDupCons(queue);
      KeySetSize(queue[1..]);
      assert queue == [queue[0]] + queue[1..];
      assert KeySet(queue) == KeySet(queue[1..]) + {queue[0]};
    }
  }

  function IndexKeys(ix: seq<Entry>): (r: seq<Key>)
    ensures |r| == |ix|
  {
    seq(|ix|, i requires 0 <= i < |ix| => KeyOf(ix[i]))
  }

  /** The order of use is as long as the index. */
  lemma SameSize(c: Cache)
    requires Inv(c)
    ensures |c.queue| == |c.index|
  {
    var keys := IndexKeys(c.index);
    forall i, j | 0 <= i < j < |keys| ensures keys[i] != keys[j] {
      KeysDiffer(c.index, i, j);
    }
    forall k ensures k in keys <==> k in c.queue {
      if Known(c.index, k) {
        var i :| 0 <= i < |c.index| && KeyOf(c.index[i]) == k;
        assert keys[i] == k;
      }
      if k in keys {
        var i :| 0 <= i < |keys| && keys[i] == k;
        assert KeyOf(c.index[i]) == k;
      }
    }
    KeySetSize(keys);
    KeySetSize(c.queue);
    assert KeySet(keys) == KeySet(c.queue);
  }

  /** After any history a prune leaves no more entries than allowed, and of too many it leaves that number or one less. */
  lemma {:induction false} PrunedSize(ops: seq<Op>, now: nat, maxCached: nat)
    requires 0 < maxCached < |Run(EMPTY, ops).index| < U32
    ensures var size := |PruneTo(Run(EMPTY, ops), now, maxCached).index|;
            size == maxCached || size == maxCached - 1
  {
    hide Inv, Pruned;
    var c := Run(EMPTY, ops);
    RunKeeps(ops);
    SameSize(c);
    PruneKeeps(c, now, maxCached);
    SameSize(PruneTo(c, now, maxCached));
    var n := PruneToMaximum(Items(c.index, c.queue), now % U32, maxCached, 1000);
  }
}
