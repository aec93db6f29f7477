/** What holds of the record cache after any history, and what get answers. */
module RecursorCacheRuns {
  import opened Octets
  import opened ByteOrder
  import opened RecordVector
  import opened RecursorEntry
  import opened CachePruning
  import opened RecursorCache
  import opened Wrappers

  ghost predicate AllSorted(ix: seq<Entry>) {
    forall i :: 0 <= i < |ix| ==> Sorted(ix[i].records)
  }

  /** The remembered range is what looking the name up again would give. */
  ghost predicate RangeOk(c: Cache) {
    c.valid ==> c.lo == NameStart(c.index, c.name) && c.hi == NameEnd(c.index, c.name)
  }

  ghost predicate NoDup(queue: seq<Key>) {
    forall i, j :: 0 <= i < j < |queue| ==> queue[i] != queue[j]
  }

  predicate Known(ix: seq<Entry>, k: Key) {
    exists i :: 0 <= i < |ix| && KeyOf(ix[i]) == k
  }

  /** The order of use holds exactly the entries of the index, each once. */
  ghost predicate QueueOk(c: Cache) {
    NoDup(c.queue) && forall k :: k in c.queue <==> Known(c.index, k)
  }

  ghost predicate IndexOk(ix: seq<Entry>) {
    Ordered(ix) && AllSorted(ix)
  }

  ghost predicate Inv(c: Cache) {
    IndexOk(c.index) && RangeOk(c) && QueueOk(c)
  }

  // ---- The index ------------------------------------------------------------------------------

  lemma UpdateKeeps(ix: seq<Entry>, i: nat, e: Entry)
    requires IndexOk(ix) && i < |ix| && e.qname == ix[i].qname && e.qtype == ix[i].qtype && Sorted(e.records)
    ensures IndexOk(ix[i := e]) && forall k :: Known(ix[i := e], k) <==> Known(ix, k)
  {
    var u := ix[i := e];
    assert forall j :: 0 <= j < |ix| ==> KeyOf(u[j]) == KeyOf(ix[j]);
    forall a, b | 0 <= a < b < |u| ensures KeyLess(u[a], u[b].qname, u[b].qtype) {
      assert KeyLess(ix[a], ix[b].qname, ix[b].qtype);
    }
    forall k ensures Known(u, k) <==> Known(ix, k) {
      if Known(ix, k) {
        var j :| 0 <= j < |ix| && KeyOf(ix[j]) == k;
        assert KeyOf(u[j]) == k;
      }
    }
  }

  lemma {:induction false} PlaceSplits(ix: seq<Entry>, name: Bytes, qtype: nat)
    requires Ordered(ix)
    ensures forall i :: 0 <= i < |ix| ==> (i < Place(ix, name, qtype) <==> KeyLess(ix[i], name, qtype))
  {
    if ix != [] {
      var tail := ix[1..];
      assert forall i :: 0 <= i < |tail| ==> tail[i] == ix[i + 1];
      PlaceSplits(tail, name, qtype);
      forall i | 0 <= i < |ix| ensures i < Place(ix, name, qtype) <==> KeyLess(ix[i], name, qtype) {
        if i > 0 {
          assert ix[i] == tail[i - 1];
          if KeyLess(ix[i], name, qtype) {
            KeyTransitive(ix[0], ix[i], name, qtype);
          }
        }
      }
    }
  }

  /** An entry that is not below a key and does not have it is above it. */
  lemma NotBelowIsAbove(e: Entry, name: Bytes, qtype: nat, n: Entry)
    requires !KeyLess(e, name, qtype) && !HasKey(e, name, qtype) && n.qname == name && n.qtype == qtype
    ensures KeyLess(n, e.qname, e.qtype)
  {
    NameTotal(e.qname, name);
  }

  lemma InsertKnown(ix: seq<Entry>, e: Entry, p: nat, k: Key)
    requires p <= |ix|
    ensures Known(ix[..p] + [e] + ix[p..], k) <==> Known(ix, k) || k == KeyOf(e)
  {
    var u := ix[..p] + [e] + ix[p..];
    if Known(ix, k) {
      var j :| 0 <= j < |ix| && KeyOf(ix[j]) == k;
      InsertedAt(ix, e, p, if j < p then j else j + 1);
      assert KeyOf(u[if j < p then j else j + 1]) == k;
    }
    if Known(u, k) && k != KeyOf(e) {
      var j :| 0 <= j < |u| && KeyOf(u[j]) == k;
      InsertedAt(ix, e, p, j);
      assert KeyOf(ix[if j < p then j else j - 1]) == k;
    }
    InsertedAt(ix, e, p, p);
    assert KeyOf(u[p]) == KeyOf(e);
  }

  lemma {:induction false} InsertKeeps(ix: seq<Entry>, e: Entry)
    requires IndexOk(ix) && Sorted(e.records) && Find(ix, e.qname, e.qtype) == |ix|
    ensures var p := Place(ix, e.qname, e.qtype); IndexOk(ix[..p] + [e] + ix[p..])
  {
    PlaceSplits(ix, e.qname, e.qtype);
    assert forall i :: 0 <= i < |ix| ==> !HasKey(ix[i], e.qname, e.qtype);
    var p := Place(ix, e.qname, e.qtype);
    hide Place, Find, KeyLess, HasKey, Sorted;
    var u := ix[..p] + [e] + ix[p..];
    forall a, b | 0 <= a < b < |u| ensures KeyLess(u[a], u[b].qname, u[b].qtype) {
      InsertedAt(ix, e, p, a);
      InsertedAt(ix, e, p, b);
      if a == p {
        NotBelowIsAbove(ix[b - 1], e.qname, e.qtype, e);
      }
    }
    forall a | 0 <= a < |u| ensures Sorted(u[a].records) {
      InsertedAt(ix, e, p, a);
    }
  }

  /** Entries of an index are told apart by their keys. */
  lemma KeysDiffer(ix: seq<Entry>, i: nat, j: nat)
    requires Ordered(ix) && i < j < |ix|
    ensures KeyOf(ix[i]) != KeyOf(ix[j])
  {
    assert KeyLess(ix[i], ix[j].qname, ix[j].qtype);
    NameTotal(ix[i].qname, ix[j].qname);
  }

  lemma RemovedAt(ix: seq<Entry>, lo: nat, hi: nat, i: nat)
    requires lo <= hi <= |ix| && i < |ix| - (hi - lo)
    ensures (ix[..lo] + ix[hi..])[i] == if i < lo then ix[i] else ix[i + hi - lo]
  {
  }

  lemma RemoveKeeps(ix: seq<Entry>, lo: nat, hi: nat)
    requires IndexOk(ix) && lo <= hi <= |ix|
    ensures IndexOk(ix[..lo] + ix[hi..])
  {
    hide KeyLess, Sorted;
    var u := ix[..lo] + ix[hi..];
    forall a, b | 0 <= a < b < |u| ensures KeyLess(u[a], u[b].qname, u[b].qtype) {
      RemovedAt(ix, lo, hi, a);
      RemovedAt(ix, lo, hi, b);
    }
    forall a | 0 <= a < |u| ensures Sorted(u[a].records) {
      RemovedAt(ix, lo, hi, a);
    }
  }

  lemma RemoveKnown(ix: seq<Entry>, lo: nat, hi: nat, k: Key)
    requires Ordered(ix) && lo <= hi <= |ix|
    ensures Known(ix[..lo] + ix[hi..], k) <==> Known(ix, k) && !Known(ix[lo..hi], k)
  {
    var u := ix[..lo] + ix[hi..];
    if Known(ix, k) && !Known(ix[lo..hi], k) {
      var j :| 0 <= j < |ix| && KeyOf(ix[j]) == k;
      InMiddle(ix, lo, hi, j);
      RemovedAt(ix, lo, hi, if j < lo then j else j - (hi - lo));
      assert KeyOf(u[if j < lo then j else j - (hi - lo)]) == k;
    }
    if Known(u, k) {
      var j :| 0 <= j < |u| && KeyOf(u[j]) == k;
      RemovedAt(ix, lo, hi, j);
      var i := if j < lo then j else j + hi - lo;
      assert KeyOf(ix[i]) == k;
      OnlyHere(ix, i, lo, hi);
    }
  }

  lemma InMiddle(ix: seq<Entry>, lo: nat, hi: nat, j: nat)
    requires lo <= hi <= |ix| && j < |ix|
    ensures lo <= j < hi ==> Known(ix[lo..hi], KeyOf(ix[j]))
  {
    if lo <= j < hi {
      assert KeyOf(ix[lo..hi][j - lo]) == KeyOf(ix[j]);
    }
  }

  lemma OnlyHere(ix: seq<Entry>, i: nat, lo: nat, hi: nat)
    requires Ordered(ix) && i < |ix| && lo <= hi <= |ix| && !(lo <= i < hi)
    ensures !Known(ix[lo..hi], KeyOf(ix[i]))
  {
    var mid := ix[lo..hi];
    forall m | 0 <= m < |mid| ensures KeyOf(mid[m]) != KeyOf(ix[i]) {
      var j := lo + m;
      assert mid[m] == ix[j];
      if i < j {
        KeysDiffer(ix, i, j);
      } else {
        KeysDiffer(ix, j, i);
      }
    }
  }

  // ---- The order of use -----------------------------------------------------------------------

  lemma NoDupCons(queue: seq<Key>)
    requires NoDup(queue) && queue != []
    ensures NoDup(queue[1..]) && queue[0] !in queue[1..]
  {
    assert forall i :: 0 <= i < |queue| - 1 ==> queue[1..][i] == queue[i + 1];
  }

  lemma NoDupFront(k: Key, queue: seq<Key>)
    requires NoDup(queue) && k !in queue
    ensures NoDup([k] + queue)
  {
    var u := [k] + queue;
    assert forall i :: 1 <= i < |u| ==> u[i] == queue[i - 1];
  }

  lemma {:induction false} RemoveKeyKeeps(queue: seq<Key>, k: Key)
    requires NoDup(queue)
    ensures NoDup(RemoveKey(queue, k)) && forall x :: x in RemoveKey(queue, k) <==> x in queue && x != k
  {
    if queue != [] {
      NoDupCons(queue);
      assert queue == [queue[0]] + queue[1..];
      if queue[0] != k {
        RemoveKeyKeeps(queue[1..], k);
        NoDupFront(queue[0], RemoveKey(queue[1..], k));
      }
    }
  }

  lemma {:induction false} DropNameKeeps(queue: seq<Key>, name: Bytes)
    requires NoDup(queue)
    ensures NoDup(DropName(queue, name)) && forall x :: x in DropName(queue, name) <==> x in queue && x.name != name
  {
    if queue != [] {
      NoDupCons(queue);
      assert queue == [queue[0]] + queue[1..];
      DropNameKeeps(queue[1..], name);
      if queue[0].name != name {
        NoDupFront(queue[0], DropName(queue[1..], name));
      }
    }
  }

  lemma RelocatedKeeps(queue: seq<Key>, m: Move)
    requires NoDup(queue) && m.key in queue
    ensures NoDup(Relocated(queue, m)) && forall x :: x in Relocated(queue, m) <==> x in queue
  {
    RemoveKeyKeeps(queue, m.key);
    NoDupFront(m.key, RemoveKey(queue, m.key));
  }

  lemma {:induction false} RelocateAllKeeps(queue: seq<Key>, moves: seq<Move>)
    requires NoDup(queue) && forall m :: m in moves ==> m.key in queue
    ensures NoDup(RelocateAll(queue, moves)) && forall x :: x in RelocateAll(queue, moves) <==> x in queue
  {
    if moves != [] {
      RelocateAllKeeps(queue, moves[..|moves| - 1]);
      RelocatedKeeps(RelocateAll(queue, moves[..|moves| - 1]), moves[|moves| - 1]);
    }
  }

  // ---- get ------------------------------------------------------------------------------------

  /** Only entries of the index are moved. */
  lemma {:induction false} CollectMoves(ix: seq<Entry>, lo: nat, hi: nat, qt: nat, now: nat, h: Hits)
    requires forall m :: m in h.moves ==> Known(ix, m.key)
    ensures forall m :: m in Collect(ix, lo, hi, qt, now, h).moves ==> Known(ix, m.key)
    decreases hi - lo
  {
    if lo < hi && lo < |ix| {
      if !Matches(ix[lo].qtype, qt) {
        CollectMoves(ix, lo + 1, hi, qt, now, h);
      } else {
        assert Known(ix, KeyOf(ix[lo]));
        if qt == ANY || qt == ADDR {
          CollectMoves(ix, lo + 1, hi, qt, now, Collected(ix[lo], now, h));
        }
      }
    }
  }

  lemma GetKeeps(c: Cache, now: nat, name: Bytes, qt: nat, want: bool)
    requires Inv(c)
    ensures Inv(Get(c, now, name, qt, want).c) && Get(c, now, name, qt, want).c.index == c.index
  {
    hide Collect, RelocateAll;
    var c' := Remember(c, name);
    var h := Collect(c'.index, c'.lo, c'.hi, qt, now, Hits({}, 0, []));
    CollectMoves(c'.index, c'.lo, c'.hi, qt, now, Hits({}, 0, []));
    RelocateAllKeeps(c.queue, h.moves);
  }

  /** get through the remembered range answers what it would answer after looking the name up afresh. */
  lemma GetIsFresh(c: Cache, now: nat, name: Bytes, qt: nat, want: bool)
    requires Inv(c)
    ensures Get(c, now, name, qt, want).left == Get(c.(valid := false), now, name, qt, want).left
    ensures Get(c, now, name, qt, want).found == Get(c.(valid := false), now, name, qt, want).found
    ensures Get(c, now, name, qt, want).c.queue == Get(c.(valid := false), now, name, qt, want).c.queue
  {
    if c.valid && SameName(c.name, name) {
      RangeIgnoresCase(c.index, c.name, name);
    }
  }

  /** A live record of a matching type under that name. */
  predicate Answers(ix: seq<Entry>, name: Bytes, qt: nat, now: nat, x: Found) {
    exists i, k :: 0 <= i < |ix| && 0 <= k < |ix[i].records| && IsAnswer(ix[i], ix[i].records[k], name, qt, now, x)
  }

  predicate IsAnswer(e: Entry, r: Record, name: Bytes, qt: nat, now: nat, x: Found) {
    SameName(e.qname, name) && Matches(e.qtype, qt) && Alive(r, now) && x == Found(e.qtype, r.data, r.ttd)
  }

  predicate FoundIn(e: Entry, qt: nat, now: nat, x: Found) {
    Matches(e.qtype, qt) && x in AliveIn(e.qtype, e.records, now)
  }

  lemma {:induction false} CollectFinds(ix: seq<Entry>, lo: nat, hi: nat, qt: nat, now: nat, h: Hits, x: Found)
    requires hi <= |ix| && Ordered(ix)
    requires forall i, j :: lo <= i < j < hi ==> SameName(ix[i].qname, ix[j].qname)
    ensures x in Collect(ix, lo, hi, qt, now, h).found <==>
            x in h.found || exists i :: lo <= i < hi && FoundIn(ix[i], qt, now, x)
    decreases hi - lo
  {
    if lo < hi {
      var h' := Collected(ix[lo], now, h);
      if !Matches(ix[lo].qtype, qt) {
        CollectFinds(ix, lo + 1, hi, qt, now, h, x);
      } else if qt == ANY || qt == ADDR {
        CollectFinds(ix, lo + 1, hi, qt, now, h', x);
        assert x in h'.found <==> x in h.found || FoundIn(ix[lo], qt, now, x);
      } else {
        forall i | lo < i < hi ensures !Matches(ix[i].qtype, qt) {
          assert KeyLess(ix[lo], ix[i].qname, ix[i].qtype);
          NameTotal(ix[lo].qname, ix[i].qname);
        }
      }
    }
  }

  /** get finds exactly the live records of the matching types under the name, whatever its case. */
  lemma GetFinds(c: Cache, now: nat, name: Bytes, qt: nat, x: Found)
    requires Inv(c)
    ensures x in Get(c, now, name, qt, true).found <==> Answers(c.index, name, qt, now, x)
  {
    GetIsFresh(c, now, name, qt, true);
    RangeIsExact(c.index, name);
    var lo, hi := NameStart(c.index, name), NameEnd(c.index, name);
    hide NameStart, NameEnd, Collect;
    CollectFinds(c.index, lo, hi, qt, now, Hits({}, 0, []), x);
    forall i | 0 <= i < |c.index|
      ensures (lo <= i < hi && FoundIn(c.index[i], qt, now, x)) <==>
              exists k :: 0 <= k < |c.index[i].records| && IsAnswer(c.index[i], c.index[i].records[k], name, qt, now, x)
    {
    }
  }
}
