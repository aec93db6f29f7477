/** The record cache of the recursor: an index ordered by name without case and by type, an order of use, and the
    range of the index that was looked up last. */
module RecursorCache {
  import opened Octets
  import opened ByteOrder
  import opened RecordVector
  import opened RecursorEntry
  import opened CachePruning

  const A := 1
  const AAAA := 28
  const ANY := 255
  const ADDR := 259

  // ---- The index ------------------------------------------------------------------------------

  predicate SameName(a: Bytes, b: Bytes) {
    Lower(a) == Lower(b)
  }

  predicate NameLess(a: Bytes, b: Bytes) {
    Less(true, Lower(a), Lower(b))
  }

  predicate KeyLess(a: Entry, name: Bytes, qtype: nat) {
    NameLess(a.qname, name) || (SameName(a.qname, name) && a.qtype < qtype)
  }

  predicate HasKey(a: Entry, name: Bytes, qtype: nat) {
    SameName(a.qname, name) && a.qtype == qtype
  }

  ghost predicate Ordered(ix: seq<Entry>) {
    forall i, j :: 0 <= i < j < |ix| ==> KeyLess(ix[i], ix[j].qname, ix[j].qtype)
  }

  /** equal_range on the name: where its entries start and where they end. */
  function NameStart(ix: seq<Entry>, name: Bytes): (p: nat)
    ensures p <= |ix|
  {
    if ix == [] || !NameLess(ix[0].qname, name) then 0 else 1 + NameStart(ix[1..], name)
  }

  function NameEnd(ix: seq<Entry>, name: Bytes): (p: nat)
    ensures p <= |ix|
  {
    if ix == [] || NameLess(name, ix[0].qname) then 0 else 1 + NameEnd(ix[1..], name)
  }

  /** find on name and type: the position, or the length. */
  function Find(ix: seq<Entry>, name: Bytes, qtype: nat): (p: nat)
    ensures p <= |ix|
    ensures p < |ix| ==> HasKey(ix[p], name, qtype)
    ensures forall i :: 0 <= i < p ==> !HasKey(ix[i], name, qtype)
  {
    if ix == [] || HasKey(ix[0], name, qtype) then 0 else 1 + Find(ix[1..], name, qtype)
  }

  /** Where an entry goes. */
  function Place(ix: seq<Entry>, name: Bytes, qtype: nat): (p: nat)
    ensures p <= |ix|
  {
    if ix == [] || !KeyLess(ix[0], name, qtype) then 0 else 1 + Place(ix[1..], name, qtype)
  }

  lemma NameTotal(a: Bytes, b: Bytes)
    ensures SameName(a, b) <==> !NameLess(a, b) && !NameLess(b, a)
    ensures !(NameLess(a, b) && NameLess(b, a))
  {
    LessTotal(true, Lower(a), Lower(b));
  }

  lemma NameTransitive(a: Bytes, b: Bytes, c: Bytes)
    requires !NameLess(b, a) && !NameLess(c, b)
    ensures !NameLess(c, a) && (NameLess(a, b) || NameLess(b, c) ==> NameLess(a, c))
  {
    NameTotal(a, b);
    NameTotal(b, c);
    NameTotal(a, c);
    if NameLess(a, b) && NameLess(b, c) {
      LessTransitive(true, Lower(a), Lower(b), Lower(c));
    }
  }

  lemma KeyTransitive(a: Entry, b: Entry, name: Bytes, qtype: nat)
    requires KeyLess(a, b.qname, b.qtype) && KeyLess(b, name, qtype)
    ensures KeyLess(a, name, qtype)
  {
    NameTotal(a.qname, b.qname);
    NameTotal(b.qname, name);
    NameTotal(a.qname, name);
    NameTransitive(a.qname, b.qname, name);
  }

  lemma {:induction false} StartSplits(ix: seq<Entry>, name: Bytes)
    requires Ordered(ix)
    ensures forall i :: 0 <= i < |ix| ==> (i < NameStart(ix, name) <==> NameLess(ix[i].qname, name))
  {
    if ix != [] {
      var tail := ix[1..];
      assert forall i :: 0 <= i < |tail| ==> tail[i] == ix[i + 1];
      StartSplits(tail, name);
      if !NameLess(ix[0].qname, name) {
        forall i | 0 <= i < |ix| ensures !NameLess(ix[i].qname, name) {
          NotBefore(ix, 0, i, name);
        }
      } else {
        forall i | 0 <= i < |ix| ensures i < NameStart(ix, name) <==> NameLess(ix[i].qname, name) {
          if i > 0 {
            assert ix[i] == tail[i - 1];
          }
        }
      }
    }
  }

  lemma NotBefore(ix: seq<Entry>, i: nat, j: nat, name: Bytes)
    requires Ordered(ix) && i <= j < |ix|
    ensures !NameLess(ix[i].qname, name) ==> !NameLess(ix[j].qname, name)
    ensures NameLess(name, ix[i].qname) ==> NameLess(name, ix[j].qname)
  {
    if i < j {
      assert KeyLess(ix[i], ix[j].qname, ix[j].qtype);
      NameTotal(ix[i].qname, ix[j].qname);
      NameTotal(name, ix[i].qname);
      NameTotal(name, ix[j].qname);
      if !NameLess(ix[i].qname, name) {
        NameTransitive(name, ix[i].qname, ix[j].qname);
      }
    }
  }

  lemma {:induction false} EndSplits(ix: seq<Entry>, name: Bytes)
    requires Ordered(ix)
    ensures forall i :: 0 <= i < |ix| ==> (i < NameEnd(ix, name) <==> !NameLess(name, ix[i].qname))
  {
    if ix != [] {
      var tail := ix[1..];
      assert forall i :: 0 <= i < |tail| ==> tail[i] == ix[i + 1];
      EndSplits(tail, name);
      if NameLess(name, ix[0].qname) {
        forall i | 0 <= i < |ix| ensures NameLess(name, ix[i].qname) {
          NotBefore(ix, 0, i, name);
        }
      } else {
        forall i | 0 <= i < |ix| ensures i < NameEnd(ix, name) <==> !NameLess(name, ix[i].qname) {
          if i > 0 {
            assert ix[i] == tail[i - 1];
          }
        }
      }
    }
  }

  /** The range holds exactly the entries with that name, in any case. */
  lemma {:induction false} RangeIsExact(ix: seq<Entry>, name: Bytes)
    requires Ordered(ix)
    ensures NameStart(ix, name) <= NameEnd(ix, name)
    ensures forall i :: 0 <= i < |ix| ==> (NameStart(ix, name) <= i < NameEnd(ix, name) <==> SameName(ix[i].qname, name))
  {
    StartSplits(ix, name);
    EndSplits(ix, name);
    var lo, hi := NameStart(ix, name), NameEnd(ix, name);
    hide NameStart, NameEnd;
    forall i | 0 <= i < |ix| ensures lo <= i < hi <==> SameName(ix[i].qname, name) {
      NameTotal(ix[i].qname, name);
    }
    if lo > hi {
      NameTotal(ix[hi].qname, name);
    }
  }

  /** Names that differ in case only have the same range. */
  lemma {:induction false} RangeIgnoresCase(ix: seq<Entry>, a: Bytes, b: Bytes)
    requires SameName(a, b)
    ensures NameStart(ix, a) == NameStart(ix, b) && NameEnd(ix, a) == NameEnd(ix, b)
  {
    if ix != [] {
      RangeIgnoresCase(ix[1..], a, b);
    }
  }

  // ---- The cache ------------------------------------------------------------------------------

  /** An entry in the order of use. */
  datatype Key = Key(name: Bytes, qtype: nat)

  function KeyOf(e: Entry): Key {
    Key(Lower(e.qname), e.qtype)
  }

  /** lo and hi are the remembered range of the remembered name, for as long as valid says so. */
  datatype Cache = Cache(index: seq<Entry>, queue: seq<Key>, valid: bool, name: Bytes, lo: nat, hi: nat)

  const EMPTY := Cache([], [], false, [], 0, 0)

  // ---- get ------------------------------------------------------------------------------------

  datatype Found = Found(qtype: nat, data: Bytes, ttd: nat)

  /** An entry that was looked at is moved in the order of use: to the back after a hit, else to the front. */
  datatype Move = Move(key: Key, front: bool)

  datatype Hits = Hits(found: set<Found>, ttd: nat, moves: seq<Move>)

  predicate Matches(etype: nat, qt: nat) {
    etype == qt || qt == ANY || (qt == ADDR && (etype == A || etype == AAAA))
  }

  predicate Alive(r: Record, now: nat) {
    r.ttd < 1_000_000_000 || r.ttd > now % U32
  }

  function AliveIn(qtype: nat, rs: seq<Record>, now: nat): set<Found> {
    set k | 0 <= k < |rs| && Alive(rs[k], now) :: Found(qtype, rs[k].data, rs[k].ttd)
  }

  function LastAlive(rs: seq<Record>, now: nat, ttd: nat): nat {
    if rs == [] then ttd
    else LastAlive(rs[1..], now, if Alive(rs[0], now) then rs[0].ttd else ttd)
  }

  /** The loop over the range. */
  function Collect(ix: seq<Entry>, lo: nat, hi: nat, qt: nat, now: nat, h: Hits): Hits
    decreases hi - lo
  {
    if lo >= hi || lo >= |ix| then h
    else if !Matches(ix[lo].qtype, qt) then Collect(ix, lo + 1, hi, qt, now, h)
    else
      var h' := Collected(ix[lo], now, h);
      if qt != ANY && qt != ADDR then h' else Collect(ix, lo + 1, hi, qt, now, h')
  }

  function Collected(e: Entry, now: nat, h: Hits): Hits {
    var found := h.found + AliveIn(e.qtype, e.records, now);
    Hits(found, LastAlive(e.records, now, h.ttd), h.moves + [Move(KeyOf(e), found == {})])
  }

  function RemoveKey(queue: seq<Key>, k: Key): seq<Key> {
    if queue == [] then [] else if queue[0] == k then queue[1..] else [queue[0]] + RemoveKey(queue[1..], k)
  }

  function Relocated(queue: seq<Key>, m: Move): seq<Key> {
    if m.front then [m.key] + RemoveKey(queue, m.key) else RemoveKey(queue, m.key) + [m.key]
  }

  function RelocateAll(queue: seq<Key>, moves: seq<Move>): seq<Key> {
    if moves == [] then queue else Relocated(RelocateAll(queue, moves[..|moves| - 1]), moves[|moves| - 1])
  }

  function Remember(c: Cache, name: Bytes): Cache {
    if !c.valid || !SameName(c.name, name)
    then c.(valid := true, name := name, lo := NameStart(c.index, name), hi := NameEnd(c.index, name))
    else c
  }

  function ToInt32(v: int): int {
    var u := v % U32;
    if u < 0x8000_0000 then u else u - U32
  }

  datatype Got = Got(c: Cache, left: int, found: set<Found>)

  /** get; without anywhere to put the records nothing is moved. */
  function Get(c: Cache, now: nat, name: Bytes, qt: nat, want: bool): Got {
    var c' := Remember(c, name);
    if c'.lo == c'.hi then Got(c', -1, {})
    else
      var h := Collect(c'.index, c'.lo, c'.hi, qt, now, Hits({}, 0, []));
      Got(if want then c'.(queue := RelocateAll(c'.queue, h.moves)) else c', ToInt32(ToInt32(h.ttd) - now),
          if want then h.found else {})
  }

  // ---- replace, wipe, age, prune --------------------------------------------------------------

  /** replace: the entry is made when there is none. */
  function Store(c: Cache, name: Bytes, qt: nat, n: News): Cache {
    var i := Find(c.index, name, qt);
    if i < |c.index| then c.(valid := false, index := c.index[i := Replaced(c.index[i], false, n)])
    else
      var p, e := Place(c.index, name, qt), Entry(name, qt, n.auth, []);
      c.(valid := false, index := c.index[..p] + [Replaced(e, true, n)] + c.index[p..],
         queue := c.queue + [Key(Lower(name), qt)])
  }

  function DropName(queue: seq<Key>, name: Bytes): seq<Key> {
    if queue == [] then []
    else if queue[0].name == name then DropName(queue[1..], name)
    else [queue[0]] + DropName(queue[1..], name)
  }

  const ALL_TYPES := 0xffff

  /** doWipeCache: one type of a name, or all. */
  function Wiped(c: Cache, name: Bytes, qtype: nat): Cache {
    if qtype == ALL_TYPES then
      var lo, hi := NameStart(c.index, name), NameEnd(c.index, name);
      if lo <= hi then c.(valid := false, index := c.index[..lo] + c.index[hi..], queue := DropName(c.queue, Lower(name)))
      else c
    else
      var i := Find(c.index, name, qtype);
      if i < |c.index| then c.(valid := false, index := c.index[..i] + c.index[i + 1..],
                               queue := RemoveKey(c.queue, Key(Lower(name), qtype)))
      else c.(valid := false)
  }

  function SetTimes(rs: seq<Record>, ttd: nat): (u: seq<Record>)
    ensures |u| == |rs|
  {
    seq(|rs|, k requires 0 <= k < |rs| => rs[k].(ttd := ttd))
  }

  /** What of an entry's time to live is left, as a 32-bit number. */
  function TimeLeft(e: Entry, now: nat): int {
    ToInt32(Earliest(e.records, U32 - 1) - now)
  }

  /** doAgeCache: an entry that has longer to live than the new time to live is given that. */
  predicate Ages(c: Cache, now: nat, name: Bytes, qtype: nat, newTTL: int) {
    var i := Find(c.index, name, qtype);
    i < |c.index| && TimeLeft(c.index[i], now) >= 0 && TimeLeft(c.index[i], now) > newTTL
  }

  function Aged(c: Cache, now: nat, name: Bytes, qtype: nat, newTTL: int): Cache {
    if !Ages(c, now, name, qtype, newTTL) then c
    else
      var i := Find(c.index, name, qtype);
      var e := c.index[i].(records := SetTimes(c.index[i].records, (now + newTTL) % U32));
      c.(valid := false, index := c.index[i := e])
  }

  /** The entry's earliest time of expiry, as the cleaner asks for it. */
  function ItemOf(ix: seq<Entry>, k: Key): Item {
    var i := Find(ix, k.name, k.qtype);
    Item(k.name, k.qtype, if i < |ix| then Earliest(ix[i].records, U32 - 1) else 0)
  }

  function Items(ix: seq<Entry>, queue: seq<Key>): (r: seq<Item>)
    ensures |r| == |queue|
  {
    seq(|queue|, k requires 0 <= k < |queue| => ItemOf(ix, queue[k]))
  }

  function Keys(items: seq<Item>): (r: seq<Key>)
    ensures |r| == |items|
  {
    seq(|items|, k requires 0 <= k < |items| => Key(items[k].name, items[k].qtype))
  }

  function KeepIn(ix: seq<Entry>, queue: seq<Key>): seq<Entry> {
    if ix == [] then [] else (if KeyOf(ix[0]) in queue then [ix[0]] else []) + KeepIn(ix[1..], queue)
  }

  /** doPrune, with the number of entries this thread may keep. */
  function PruneTo(c: Cache, now: nat, maxCached: nat): Cache {
    var queue := Keys(Pruned(Items(c.index, c.queue), now % U32, maxCached, 1000));
    c.(valid := false, index := KeepIn(c.index, queue), queue := queue)
  }
}
