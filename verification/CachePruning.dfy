/** Keeping a cache within bounds: entries are dropped from the front of the order of use, expired ones first. */
module CachePruning {
  import opened Octets

  /** An entry of a cache as the cleaner sees it: what it is, and the earliest time it expires. */
  datatype Item = Item(name: Bytes, qtype: nat, ttd: nat)

  /** What is kept of the part that was looked at, how many expired entries were in that part, and the rest. */
  datatype Scanned = Scanned(kept: seq<Item>, erased: nat, rest: seq<Item>)

  /** The scan of the front of the queue: it looks at no more than lookAt entries, and with something to trim it
      stops once it erased more than that. */
  function Scan(q: seq<Item>, now: nat, toTrim: nat, lookAt: nat, erased: nat): (r: Scanned)
    decreases |q|
  {
    if q == [] || lookAt == 0 then Scanned([], erased, q)
    else if q[0].ttd < now then
      if toTrim != 0 && erased + 1 > toTrim then Scanned([], erased + 1, q[1..])
      else Scan(q[1..], now, toTrim, lookAt - 1, erased + 1)
    else if toTrim != 0 && erased > toTrim then Scanned([q[0]], erased, q[1..])
    else Kept(q[0], Scan(q[1..], now, toTrim, lookAt - 1, erased))
  }

  function Kept(x: Item, s: Scanned): Scanned {
    s.(kept := [x] + s.kept)
  }

  /** How many entries are too many, in unsigned arithmetic. */
  function ToTrim(size: nat, maxCached: nat): nat {
    if maxCached != 0 && size % U32 > maxCached then size % U32 - maxCached else 0
  }

  function LookAt(size: nat, toTrim: nat, scanFraction: nat): nat
    requires scanFraction > 0
  {
    if toTrim != 0 then 5 * toTrim % U32 else size % U32 / scanFraction
  }

  /** pruneCollection. */
  function Pruned(q: seq<Item>, now: nat, maxCached: nat, scanFraction: nat): seq<Item>
    requires scanFraction > 0
  {
    var toTrim := ToTrim(|q|, maxCached);
    var s := Scan(q, now, toTrim, LookAt(|q|, toTrim, scanFraction), 0);
    var left := s.kept + s.rest;
    if s.erased >= toTrim || toTrim - s.erased > |left| then left else left[toTrim - s.erased..]
  }

  // ---- What the scan removes ------------------------------------------------------------------

  /** The entries that are not expired. */
  function Fresh(q: seq<Item>, now: nat): (r: seq<Item>)
    ensures |r| <= |q|
  {
    if q == [] then [] else if q[0].ttd < now then Fresh(q[1..], now) else [q[0]] + Fresh(q[1..], now)
  }

  lemma {:induction false} FreshCons(x: Item, q: seq<Item>, now: nat)
    ensures Fresh([x] + q, now) == if x.ttd < now then Fresh(q, now) else [x] + Fresh(q, now)
  {
    assert ([x] + q)[1..] == q;
  }

  lemma {:induction false} FreshConcat(a: seq<Item>, b: seq<Item>, now: nat)
    ensures Fresh(a + b, now) == Fresh(a, now) + Fresh(b, now)
  {
    if a == [] {
      assert a + b == b && Fresh(a, now) + Fresh(b, now) == Fresh(b, now);
    } else {
      hide Fresh;
      var x, tail := a[0], a[1..];
      FreshConcat(tail, b, now);
      assert a == [x] + tail && a + b == [x] + (tail + b);
      FreshCons(x, tail, now);
      FreshCons(x, tail + b, now);
      Prepended(x, Fresh(tail, now), Fresh(b, now));
    }
  }

  lemma Prepended(x: Item, a: seq<Item>, b: seq<Item>)
    ensures [x] + (a + b) == [x] + a + b
  {
  }

  /** Where the scan stops: it removed exactly the expired ones among the first n entries. */
  lemma {:induction false} ScanRemoves(q: seq<Item>, now: nat, toTrim: nat, lookAt: nat, erased: nat)
      returns (n: nat)
    requires toTrim != 0 ==> erased <= toTrim
    ensures var s := Scan(q, now, toTrim, lookAt, erased);
            && n <= |q| && n <= lookAt && s.rest == q[n..] && s.kept == Fresh(q[..n], now)
            && s.erased == erased + n - |s.kept|
            && (toTrim != 0 ==> s.erased <= toTrim + 1)
            && (n < |q| && n < lookAt ==> toTrim != 0 && s.erased == toTrim + 1)
    decreases |q|
  {
    n := 0;
    if q != [] && lookAt != 0 {
      n := 1;
      var tail := q[1..];
      FreshFirst(q, 1, now);
      var erased' := if q[0].ttd < now then erased + 1 else erased;
      if !(toTrim != 0 && erased' > toTrim) {
        var m := ScanRemoves(tail, now, toTrim, lookAt - 1, erased');
        n := m + 1;
        FreshFirst(q, n, now);
        assert tail[..m] == q[1..n];
      }
    }
  }

  lemma {:induction false} FreshFirst(q: seq<Item>, n: nat, now: nat)
    requires 1 <= n <= |q|
    ensures Fresh(q[..n], now) == if q[0].ttd < now then Fresh(q[1..n], now) else [q[0]] + Fresh(q[1..n], now)
  {
    assert q[..n][0] == q[0] && q[..n][1..] == q[1..n];
  }

  // ---- The bound ------------------------------------------------------------------------------

  /** A cache that is over its maximum is left with exactly the maximum or one less, the last in the order of use
      of those that remain when the expired ones among the first n are gone. No more than five times as many as
      are too many are looked at. */
  lemma PruneToMaximum(q: seq<Item>, now: nat, maxCached: nat, scanFraction: nat) returns (n: nat)
    requires 0 < maxCached < |q| < U32 && scanFraction > 0
    ensures var r := Pruned(q, now, maxCached, scanFraction);
            && n <= |q| && n <= 5 * (|q| - maxCached) % U32 && (|r| == maxCached || |r| == maxCached - 1)
            && var left := Fresh(q[..n], now) + q[n..];
               |r| <= |left| && r == left[|left| - |r|..]
  {
    hide Scan, Fresh, LookAt, ToTrim;
    ToTrimIs(|q|, maxCached);
    var toTrim := |q| - maxCached;
    LookAtTrim(|q|, toTrim, scanFraction);
    n := ScanRemoves(q, now, toTrim, LookAt(|q|, toTrim, scanFraction), 0);
  }

  lemma ToTrimIs(size: nat, maxCached: nat)
    requires 0 < maxCached < size < U32
    ensures ToTrim(size, maxCached) == size - maxCached
  {
  }

  /** One less is left exactly when more expired ones than are too many come up in the entries looked at. */
  lemma {:induction false} OneLessIff(q: seq<Item>, now: nat, maxCached: nat, scanFraction: nat, toTrim: nat, k: nat)
    requires 0 < maxCached < |q| < U32 && scanFraction > 0 && toTrim == |q| - maxCached
    requires k == if 5 * toTrim % U32 < |q| then 5 * toTrim % U32 else |q|
    ensures |Pruned(q, now, maxCached, scanFraction)| == maxCached - 1 <==>
            k - |Fresh(q[..k], now)| > toTrim
  {
    hide Scan, Fresh, LookAt;
    var lookAt := LookAt(|q|, toTrim, scanFraction);
    LookAtTrim(|q|, toTrim, scanFraction);
    var n := ScanRemoves(q, now, toTrim, lookAt, 0);
    assert n <= k;
    FreshConcat(q[..n], q[n..k], now);
    assert q[..k] == q[..n] + q[n..k];
  }

  lemma LookAtTrim(size: nat, toTrim: nat, scanFraction: nat)
    requires scanFraction > 0
    ensures toTrim != 0 ==> LookAt(size, toTrim, scanFraction) == 5 * toTrim % U32
    ensures toTrim == 0 && size < U32 ==> LookAt(size, toTrim, scanFraction) == size / scanFraction <= size
  {
    if toTrim == 0 && size < U32 {
      FractionIsLess(size, scanFraction, size / scanFraction);
    }
  }

  /** A cache that is not over its maximum loses the expired ones among the first size / scanFraction entries. */
  lemma {:induction false} PruneExpired(q: seq<Item>, now: nat, maxCached: nat, scanFraction: nat)
    requires |q| < U32 && (maxCached == 0 || |q| <= maxCached) && scanFraction > 0
    ensures var n := |q| / scanFraction;
            n <= |q| && Pruned(q, now, maxCached, scanFraction) == Fresh(q[..n], now) + q[n..]
  {
    hide Scan, Fresh, LookAt;
    var toTrim := ToTrim(|q|, maxCached);
    LookAtTrim(|q|, toTrim, scanFraction);
    var n := ScanRemoves(q, now, toTrim, LookAt(|q|, toTrim, scanFraction), 0);
  }

  lemma FractionIsLess(size: nat, fraction: nat, n: nat)
    requires fraction > 0 && n == size / fraction
    ensures n <= size
  {
    assert size == n * fraction + size % fraction;
    assert n * fraction == n + n * (fraction - 1);
    Product(n, fraction - 1);
  }

  lemma Product(a: nat, b: nat)
    ensures a * b >= 0
  {
  }

  /** Nothing that was not there comes in. */
  lemma {:induction false} FreshIn(q: seq<Item>, now: nat, x: Item)
    ensures x in Fresh(q, now) <==> x in q && x.ttd >= now
  {
    if q != [] {
      FreshIn(q[1..], now, x);
      assert q == [q[0]] + q[1..];
    }
  }

  lemma PrunedIn(q: seq<Item>, now: nat, maxCached: nat, scanFraction: nat, x: Item)
    requires scanFraction > 0 && x in Pruned(q, now, maxCached, scanFraction)
    ensures x in q
  {
    var toTrim := ToTrim(|q|, maxCached);
    var n := ScanRemoves(q, now, toTrim, LookAt(|q|, toTrim, scanFraction), 0);
    FreshIn(q[..n], now, x);
  }

  /** One turn of the scan: what it makes of the first entry, and whether it goes on. */
  lemma {:induction false} ScanStep(q: seq<Item>, now: nat, toTrim: nat, lookAt: nat, erased: nat, erased': nat, next: Scanned)
    requires q != [] && lookAt > 0 && erased' == (if q[0].ttd < now then erased + 1 else erased)
    requires next == if toTrim != 0 && erased' > toTrim then Scanned([], erased', q[1..])
                     else Scan(q[1..], now, toTrim, lookAt - 1, erased')
    ensures Scan(q, now, toTrim, lookAt, erased) == if q[0].ttd < now then next else Kept(q[0], next)
  {
  }

  /** The iterator goes past an entry that is kept, and stands still at one that is erased. */
  lemma Stepped(front: seq<Item>, x: Item, r: Scanned, next: Scanned, late: bool, front': seq<Item>)
    requires r == (if late then next else Kept(x, next)) && front' == (if late then front else front + [x])
    ensures Ahead(front', next) == Ahead(front, r)
  {
    assert front + ([x] + next.kept) == front + [x] + next.kept;
  }

  /** A scan with what was kept in front of it. */
  function Ahead(front: seq<Item>, s: Scanned): Scanned {
    s.(kept := front + s.kept)
  }

  lemma AheadOfNone(front: seq<Item>, erased: nat, rest: seq<Item>)
    ensures Ahead(front, Scanned([], erased, rest)) == Scanned(front, erased, rest)
    ensures Ahead([], Scanned(front, erased, rest)) == Scanned(front, erased, rest)
  {
  }

  lemma {:induction false} Scanless(q: seq<Item>, now: nat, toTrim: nat, lookAt: nat, erased: nat)
    requires q == [] || lookAt == 0
    ensures Scan(q, now, toTrim, lookAt, erased) == Scanned([], erased, q)
  {
  }

  // ---- The collection -------------------------------------------------------------------------

  /** The sequence index of a cache: what is dropped first is in front. */
  class Collection {
    var sidx: seq<Item>

    constructor ()
      ensures sidx == []
    {
      sidx := [];
    }

    method Prune(now: nat, maxCached: nat, scanFraction: nat)
      requires scanFraction > 0
      modifies this
      ensures sidx == Pruned(old(sidx), now, maxCached, scanFraction)
    {
      hide Scan, ToTrim, LookAt;
      var toTrim := TooMany(maxCached);
      var erased := EraseExpired(now, toTrim, LookAt(|sidx|, toTrim, scanFraction));
      if erased >= toTrim || toTrim - erased > |sidx| {
        return;
      }
      sidx := sidx[toTrim - erased..];
    }

    method TooMany(maxCached: nat) returns (toTrim: nat)
      ensures toTrim == ToTrim(|sidx|, maxCached)
    {
      toTrim := 0;
      var cacheSize := |sidx| % U32;
      if maxCached != 0 && cacheSize > maxCached {
        toTrim := cacheSize - maxCached;
      }
    }

    method EraseExpired(now: nat, toTrim: nat, lookAt: nat) returns (erased: nat)
      modifies this
      ensures var s := Scan(old(sidx), now, toTrim, lookAt, 0);
              sidx == s.kept + s.rest && erased == s.erased
    {
      hide Scan, Ahead;
      var tried, i := 0, 0;
      erased := 0;
      ghost var s := Scan(sidx, now, toTrim, lookAt, 0);
      ghost var r, front, q := s, [], sidx;
      AheadOfNone(s.kept, s.erased, s.rest);
      while i < |sidx| && tried < lookAt
        invariant i == |front| && tried <= lookAt && sidx == front + q
        invariant r == Scan(q, now, toTrim, lookAt - tried, erased)
        invariant Ahead(front, r) == s
        decreases lookAt - tried
      {
        var late, before := sidx[i].ttd < now, erased;
        if late {
          erased := erased + 1;
          Erase(i);
        } else {
          i := i + 1;
        }
        var done := toTrim != 0 && erased > toTrim;
        ghost var next := if done then Scanned([], erased, q[1..]) else Scan(q[1..], now, toTrim, lookAt - tried - 1, erased);
        ScanStep(q, now, toTrim, lookAt - tried, before, erased, next);
        ghost var front' := if late then front else front + [q[0]];
        Stepped(front, q[0], r, next, late, front');
        front, q, r := front', q[1..], next;
        if done {
          AheadOfNone(front, erased, q);
          return;
        }
        tried := tried + 1;
      }
      Scanless(q, now, toTrim, lookAt - tried, erased);
      AheadOfNone(front, erased, q);
    }

    method Erase(i: nat)
      requires i < |sidx|
      modifies this
      ensures |sidx| == |old(sidx)| - 1 && sidx[..i] == old(sidx)[..i] && sidx[i..] == old(sidx)[i + 1..]
    {
      sidx := sidx[..i] + sidx[i + 1..];
    }

    /** moveCacheItemToFrontOrBack: after a miss an entry is dropped next, after a hit last. */
    method Move(i: nat, front: bool)
      requires i < |sidx|
      modifies this
      ensures sidx == if front then [old(sidx[i])] + old(sidx[..i]) + old(sidx[i + 1..])
                      else old(sidx[..i]) + old(sidx[i + 1..]) + [old(sidx[i])]
    {
      var rest := sidx[..i] + sidx[i + 1..];
      sidx := if front then [sidx[i]] + rest else rest + [sidx[i]];
    }
  }
}
