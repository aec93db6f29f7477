/** The packet cache's methods, with the loop over the matches and the scan for a suffix. */
module PacketCacheOps {
  import opened Octets
  import opened BackwardsOrder
  import P = PacketCache
  import opened Wrappers

  class PacketCache {
    var entries: seq<P.Entry>

    constructor ()
      ensures entries == []
    {
      entries := [];
    }

    /** insert; without the lock it does nothing. */
    method Insert(k: P.Key, value: Bytes, ttl: nat, now: nat, gotIt: bool)
      modifies this
      ensures entries == if gotIt then P.Insert(old(entries), k, value, ttl, now) else old(entries)
    {
      if ttl == 0 {
        return;
      }
      var val := P.Entry(P.Key(k.qname, k.qtype, k.ctype, -1, k.meritsRecursion), now + ttl, value);
      if gotIt {
        var place := FindPlace(val.key);
        if place < |entries| && !P.KeyLess(val.key, entries[place].key) {
          entries := entries[place := val];
        } else {
          entries := entries[..place] + [val] + entries[place..];
        }
      }
    }

    /** The lookup by the composite key. */
    method FindPlace(k: P.Key) returns (place: nat)
      ensures place == P.Place(entries, k)
    {
      hide P.KeyLess;
      place := 0;
      while place < |entries| && P.KeyLess(entries[place].key, k)
        invariant place <= |entries| && P.Place(entries, k) == place + P.Place(entries[place..], k)
      {
        assert entries[place..][1..] == entries[place + 1..];
        place := place + 1;
      }
    }

    method GetEntryLocked(k: P.Key, now: nat) returns (value: Option<Bytes>)
      ensures value == P.GetEntry(entries, k, now)
    {
      var i := FindPlace(k);
      var ret := i != |entries| && !P.KeyLess(k, entries[i].key) && entries[i].ttd > now;
      value := if ret then Some(entries[i].value) else None;
    }

    method Purge(matches: seq<Bytes>) returns (delcount: nat)
      modifies this
      ensures P.Purged(entries, delcount) == P.Purge(old(entries), matches)
    {
      hide P.NameStart, P.NameEnd;
      delcount := 0;
      if |matches| == 0 {
        delcount := |entries|;
        entries := [];
        return;
      }
      ghost var rest := matches[1..];
      for i := 1 to |matches|
        invariant P.Purged(entries, delcount) == P.PurgeAll(P.Purged(old(entries), 0), rest[..i - 1])
      {
        var match' := matches[i];
        assert rest[..i][..i - 1] == rest[..i - 1] && rest[..i][i - 1] == match';
        if P.IsSuffixMatch(match') {
          var suffix := match'[..|match'| - 1];
          var start := P.NameStart(entries, suffix);
          var iter := ScanZone(start, suffix);
          delcount := delcount + (iter - start);
          entries := entries[..start] + entries[iter..];
        } else {
          var first, last := P.NameStart(entries, match'), P.NameEnd(entries, match');
          delcount := if first <= last then last - first else 0;
          if first <= last {
            entries := entries[..first] + entries[last..];
          }
        }
      }
      assert rest[..|matches| - 1] == rest;
    }

    /** Goes on until the first name that is neither the suffix nor below it. */
    method ScanZone(start: nat, suffix: Bytes) returns (iter: nat)
      requires start <= |entries|
      ensures iter == P.ZoneEnd(entries, start, suffix)
    {
      hide InZone;
      iter := start;
      while iter != |entries|
        invariant start <= iter <= |entries| && P.ZoneEnd(entries, start, suffix) == P.ZoneEnd(entries, iter, suffix)
        decreases |entries| - iter
      {
        if !InZone(entries[iter].key.qname, suffix) {
          break;
        }
        iter := iter + 1;
      }
    }
  }
}
