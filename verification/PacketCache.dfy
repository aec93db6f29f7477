/** The packet cache of the authoritative server: a map ordered by name from the back. */
module PacketCache {
  import opened Octets
  import opened BackwardsOrder
  import opened Wrappers

  datatype Key = Key(qname: Bytes, qtype: nat, ctype: nat, zoneID: int, meritsRecursion: bool)

  datatype Entry = Entry(key: Key, ttd: nat, value: Bytes)

  predicate RestLess(a: Key, b: Key) {
    if a.qtype != b.qtype then a.qtype < b.qtype
    else if a.ctype != b.ctype then a.ctype < b.ctype
    else if a.zoneID != b.zoneID then a.zoneID < b.zoneID
    else !a.meritsRecursion && b.meritsRecursion
  }

  /** The composite order: by name, and among names in no order by the rest of the key. */
  predicate KeyLess(a: Key, b: Key) {
    BackLess(a.qname, b.qname) || (!BackLess(b.qname, a.qname) && RestLess(a, b))
  }

  /** The same key, the case of the name aside. */
  predicate SameKey(a: Key, b: Key) {
    Lower(a.qname) == Lower(b.qname) && a.(qname := []) == b.(qname := [])
  }

  ghost predicate Ordered(m: seq<Entry>) {
    && (forall i :: 0 <= i < |m| ==> NoNul(m[i].key.qname))
    && forall i, j :: 0 <= i < j < |m| ==> KeyLess(m[i].key, m[j].key)
  }

  // ---- Looking up -----------------------------------------------------------------------------

  /** How many entries are below a key; where it is, or would go. */
  function Place(m: seq<Entry>, k: Key): (p: nat)
    ensures p <= |m|
  {
    if m == [] || !KeyLess(m[0].key, k) then 0 else 1 + Place(m[1..], k)
  }

  predicate IsThere(m: seq<Entry>, k: Key) {
    Place(m, k) < |m| && !KeyLess(k, m[Place(m, k)].key)
  }

  /** getEntryLocked: an entry that does not expire after now is as good as none. */
  function GetEntry(m: seq<Entry>, k: Key, now: nat): Option<Bytes> {
    if IsThere(m, k) && m[Place(m, k)].ttd > now then Some(m[Place(m, k)].value) else None
  }

  /** lower_bound on the name. */
  function NameStart(m: seq<Entry>, name: Bytes): (p: nat)
    ensures p <= |m|
  {
    if m == [] || !BackLess(m[0].key.qname, name) then 0 else 1 + NameStart(m[1..], name)
  }

  /** upper_bound on the name. */
  function NameEnd(m: seq<Entry>, name: Bytes): (p: nat)
    ensures p <= |m|
  {
    if m == [] || BackLess(name, m[0].key.qname) then 0 else 1 + NameEnd(m[1..], name)
  }

  // ---- purge and insert -----------------------------------------------------------------------

  /** Where the scan for a suffix stops: at the first name that is not in the zone. */
  function ZoneEnd(m: seq<Entry>, from: nat, suffix: Bytes): (p: nat)
    requires from <= |m|
    ensures from <= p <= |m|
    decreases |m| - from
  {
    if from == |m| || !InZone(m[from].key.qname, suffix) then from else ZoneEnd(m, from + 1, suffix)
  }

  datatype Purged = Purged(m: seq<Entry>, delcount: nat)

  const DOLLAR: Byte := 36

  predicate IsSuffixMatch(match': Bytes) {
    match' != [] && match'[|match'| - 1] == DOLLAR
  }

  function PurgeSuffix(m: seq<Entry>, suffix: Bytes): (r: seq<Entry>)
    ensures |r| <= |m|
  {
    var lo := NameStart(m, suffix);
    m[..lo] + m[ZoneEnd(m, lo, suffix)..]
  }

  function PurgeName(m: seq<Entry>, name: Bytes): (r: seq<Entry>)
    ensures |r| <= |m|
  {
    var lo, hi := NameStart(m, name), NameEnd(m, name);
    if lo <= hi then m[..lo] + m[hi..] else m
  }

  /** One match; a plain one overwrites the count of what was deleted before it. */
  function PurgeOne(p: Purged, match': Bytes): Purged {
    if IsSuffixMatch(match') then
      var m := PurgeSuffix(p.m, match'[..|match'| - 1]);
      Purged(m, p.delcount + |p.m| - |m|)
    else
      var m := PurgeName(p.m, match');
      Purged(m, |p.m| - |m|)
  }

  function PurgeAll(p: Purged, matches: seq<Bytes>): Purged {
    if matches == [] then p
    else PurgeOne(PurgeAll(p, matches[..|matches| - 1]), matches[|matches| - 1])
  }

  /** purge: without matches everything goes; the first match is the name of the command and is skipped. */
  function Purge(m: seq<Entry>, matches: seq<Bytes>): Purged {
    if matches == [] then Purged([], |m|) else PurgeAll(Purged(m, 0), matches[1..])
  }

  /** insert: the zone is not taken over into the entry, and nothing is stored with no time to live. */
  function Insert(m: seq<Entry>, k: Key, value: Bytes, ttl: nat, now: nat): seq<Entry> {
    if ttl == 0 then m
    else
      var val := Entry(k.(zoneID := -1), now + ttl, value);
      var p := Place(m, val.key);
      if IsThere(m, val.key) then m[p := val] else m[..p] + [val] + m[p..]
  }

  // ---- Keys -----------------------------------------------------------------------------------

  lemma KeyTotal(a: Key, b: Key)
    requires NoNul(a.qname) && NoNul(b.qname)
    ensures SameKey(a, b) <==> !KeyLess(a, b) && !KeyLess(b, a)
    ensures !(KeyLess(a, b) && KeyLess(b, a))
  {
    StrictWeakOrder(a.qname, b.qname, a.qname);
    hide BackLess;
  }

  /** Equal names but for case sort alike. */
  lemma SameNameSortsAlike(a: Bytes, b: Bytes, c: Bytes)
    requires Lower(a) == Lower(b)
    ensures BackLess(a, c) == BackLess(b, c) && BackLess(c, a) == BackLess(c, b)
  {
    BackSame(a, b);
  }

  lemma KeyTransitive(a: Key, b: Key, c: Key)
    requires NoNul(a.qname) && NoNul(b.qname) && NoNul(c.qname) && KeyLess(a, b) && KeyLess(b, c)
    ensures KeyLess(a, c)
  {
    StrictWeakOrder(a.qname, b.qname, c.qname);
    StrictWeakOrder(b.qname, c.qname, a.qname);
    StrictWeakOrder(c.qname, a.qname, b.qname);
    if !BackLess(a.qname, b.qname) {
      SameNameSortsAlike(a.qname, b.qname, c.qname);
    }
    if !BackLess(b.qname, c.qname) {
      SameNameSortsAlike(b.qname, c.qname, a.qname);
    }
    hide BackLess;
  }

  lemma {:induction false} PlaceSplits(m: seq<Entry>, k: Key)
    requires Ordered(m) && NoNul(k.qname)
    ensures forall i :: 0 <= i < |m| ==> (i < Place(m, k) <==> KeyLess(m[i].key, k))
  {
    hide KeyLess, NoNul;
    if m != [] {
      var tail := m[1..];
      assert forall i :: 0 <= i < |tail| ==> tail[i] == m[i + 1];
      PlaceSplits(tail, k);
      forall i | 0 <= i < |m| ensures i < Place(m, k) <==> KeyLess(m[i].key, k) {
        if i > 0 {
          assert m[i] == tail[i - 1];
          if KeyLess(m[i].key, k) {
            KeyTransitive(m[0].key, m[i].key, k);
          }
        }
      }
    }
  }

  /** The entry with a key, in any case, is found if it is there. */
  lemma {:induction false} FoundIff(m: seq<Entry>, k: Key, i: nat)
    requires Ordered(m) && NoNul(k.qname) && i < |m|
    ensures SameKey(m[i].key, k) <==> IsThere(m, k) && Place(m, k) == i
  {
    PlaceSplits(m, k);
    hide KeyLess, NoNul, Place, SameKey;
    KeyTotal(m[i].key, k);
    var p := Place(m, k);
    if SameKey(m[i].key, k) && p < i {
      assert KeyLess(m[p].key, m[i].key);
      KeyTotal(m[p].key, k);
      SameSortsAlike(m[i].key, k, m[p].key);
    }
  }

  lemma SameSortsAlike(a: Key, b: Key, c: Key)
    requires SameKey(a, b)
    ensures KeyLess(c, a) == KeyLess(c, b) && KeyLess(a, c) == KeyLess(b, c)
  {
    SameNameSortsAlike(a.qname, b.qname, c.qname);
    hide BackLess;
  }
}
