/** What replace does to one entry of the record cache: who may overwrite whom, and which times of expiry move. */
module RecursorEntry {
  import opened Octets
  import opened ByteOrder
  import opened RecordVector

  const NS := 2
  const CNAME := 5
  const SOA := 6

  datatype Entry = Entry(qname: Bytes, qtype: nat, auth: bool, records: seq<Record>)

  /** New data for an entry: when it came in, the records with their times of expiry, whether it is
      authoritative, and whether times may be lowered as RFC 2181 has it. */
  datatype News = News(now: nat, content: seq<Record>, auth: bool, followRFC2181: bool)

  predicate OnlyOne(qtype: nat) {
    qtype == SOA || qtype == CNAME
  }

  predicate AnyLive(rs: seq<Record>, now: nat) {
    exists i :: 0 <= i < |rs| && rs[i].ttd > now
  }

  /** attemptToRefreshNSTTL. */
  predicate Refresh(e: Entry, content: seq<Record>) {
    && e.auth && e.qtype == NS && |content| == |e.records| && e.records != []
    && e.records[0].ttd <= content[0].ttd
  }

  /** A stored record that is sent again. */
  function Updated(j: Record, i: Record, qtype: nat, n: News): Record {
    if j.ttd > n.now % U32 && i.ttd > j.ttd && qtype == NS && n.auth then j
    else if i.ttd > j.ttd || (n.auth && n.followRFC2181) then j.(ttd := i.ttd)
    else j
  }

  predicate Has(rs: seq<Record>, data: Bytes) {
    exists i :: 0 <= i < |rs| && rs[i].data == data
  }

  function Again(j: Record, i: Record, qtype: nat, n: News): Record {
    if j.data == i.data then Updated(j, i, qtype, n) else j
  }

  /** Stores one record: all copies of it are updated, or it is added. */
  function StoreOne(rs: seq<Record>, i: Record, qtype: nat, n: News): seq<Record> {
    if Has(rs, i.data) then seq(|rs|, k requires 0 <= k < |rs| => Again(rs[k], i, qtype, n)) else Sort(rs + [i])
  }

  function StoreAll(rs: seq<Record>, content: seq<Record>, qtype: nat, n: News): seq<Record> {
    if content == [] then rs
    else StoreOne(StoreAll(rs, content[..|content| - 1], qtype, n), content[|content| - 1], qtype, n)
  }

  /** The entry after the single record types were cleared. */
  function Cleared(e: Entry): Entry {
    if OnlyOne(e.qtype) then e.(records := []) else e
  }

  predicate Ignored(e: Entry, n: News) {
    !n.auth && Cleared(e).auth && AnyLive(Cleared(e).records, n.now)
  }

  /** replace on an entry that is there, or that was just made. */
  function Replaced(e: Entry, isNew: bool, n: News): Entry {
    if Ignored(e, n) then e
    else
      var ce := Cleared(e).(auth := Cleared(e).auth && n.auth);
      if n.auth && !Refresh(Cleared(e), n.content) then ce.(auth := true, records := Sort(n.content))
      else if isNew then ce.(records := Sort(ce.records + n.content))
      else ce.(records := StoreAll(ce.records, n.content, e.qtype, n))
  }

  // ---- Trust ----------------------------------------------------------------------------------

  /** Data without authority leaves an authoritative entry as it is exactly when that still holds a live record and
      is not of a type that is cleared first. */
  lemma UnauthIgnoredIff(e: Entry, isNew: bool, n: News)
    requires e.auth && !n.auth
    ensures Replaced(e, isNew, n) == e <==> !OnlyOne(e.qtype) && AnyLive(e.records, n.now)
  {
  }

  // ---- Refreshing -----------------------------------------------------------------------------

  /** What becomes of one stored record. */
  function Final(r: Record, content: seq<Record>, qtype: nat, n: News): (f: Record)
    ensures f.data == r.data
  {
    if content == [] then r
    else Again(Final(r, content[..|content| - 1], qtype, n), content[|content| - 1], qtype, n)
  }

  lemma StoreOneKeeps(rs: seq<Record>, i: Record, qtype: nat, n: News, r: Record)
    requires r in rs
    ensures Again(r, i, qtype, n) in StoreOne(rs, i, qtype, n)
  {
    if Has(rs, i.data) {
      var k :| 0 <= k < |rs| && rs[k] == r;
      assert StoreOne(rs, i, qtype, n)[k] == Again(r, i, qtype, n);
    } else {
      assert r.data != i.data;
      SortSorts(rs + [i]);
      assert r in multiset(rs + [i]);
    }
  }

  /** No stored record is dropped: each is there after the update, with its data. */
  lemma {:induction false} StoreAllKeeps(rs: seq<Record>, content: seq<Record>, qtype: nat, n: News, r: Record)
    requires r in rs
    ensures Final(r, content, qtype, n) in StoreAll(rs, content, qtype, n)
  {
    if content != [] {
      var front := content[..|content| - 1];
      StoreAllKeeps(rs, front, qtype, n, r);
      StoreOneKeeps(StoreAll(rs, front, qtype, n), content[|content| - 1], qtype, n, Final(r, front, qtype, n));
    }
  }

  /** The record at position i kills the stored one, and every later copy of it would live longer than that did. */
  predicate Revived(content: seq<Record>, i: nat, r: Record, now: nat) {
    && i < |content| && content[i].data == r.data && content[i].ttd <= now
    && forall j :: i < j < |content| && content[j].data == r.data ==> content[j].ttd > r.ttd
  }

  predicate Later(content: seq<Record>, i: nat, r: Record) {
    exists j :: i < j < |content| && content[j].data == r.data
  }

  /** An NS record that is live and refreshed by an authority: its time of expiry is raised exactly when times may be
      lowered and it is sent more than once, first with a time that is past and from then on only with later ones
      than it had. */
  lemma {:induction false} RaisedIff(r: Record, content: seq<Record>, n: News)
    requires n.auth && r.ttd > n.now % U32
    ensures Final(r, content, NS, n).ttd > r.ttd <==>
            n.followRFC2181 && exists i: nat :: Revived(content, i, r, n.now % U32) && Later(content, i, r)
  {
    if n.followRFC2181 {
      FinalIs(r, content, n);
    } else {
      Unmoved(r, content, n);
    }
  }

  lemma {:induction false} Unmoved(r: Record, content: seq<Record>, n: News)
    requires n.auth && !n.followRFC2181 && r.ttd > n.now % U32
    ensures Final(r, content, NS, n) == r
  {
    if content != [] {
      Unmoved(r, content[..|content| - 1], n);
    }
  }

  lemma {:induction false} FinalIs(r: Record, content: seq<Record>, n: News)
    requires n.auth && n.followRFC2181 && r.ttd > n.now % U32
    ensures var now, f := n.now % U32, Final(r, content, NS, n).ttd;
            && (f > r.ttd <==> exists i: nat :: Revived(content, i, r, now) && Later(content, i, r))
            && (f <= now || f > r.ttd <==> exists i: nat :: Revived(content, i, r, now))
  {
    if content != [] {
      var last, front := |content| - 1, content[..|content| - 1];
      FinalIs(r, front, n);
      var x := content[last];
      forall i: nat | i < last
        ensures Revived(content, i, r, n.now % U32) <==>
                Revived(front, i, r, n.now % U32) && (x.data == r.data ==> x.ttd > r.ttd)
        ensures Later(content, i, r) <==> Later(front, i, r) || x.data == r.data
      {
        Extended(content, i, r, n.now % U32);
      }
      assert !Later(content, last, r);
      assert Revived(content, last, r, n.now % U32) <==> x.data == r.data && x.ttd <= n.now % U32;
    }
  }

  lemma Extended(content: seq<Record>, i: nat, r: Record, now: nat)
    requires i < |content| - 1
    ensures var x, front := content[|content| - 1], content[..|content| - 1];
            && (Revived(content, i, r, now) <==> Revived(front, i, r, now) && (x.data == r.data ==> x.ttd > r.ttd))
            && (Later(content, i, r) <==> Later(front, i, r) || x.data == r.data)
  {
    var last, front := |content| - 1, content[..|content| - 1];
    assert forall j :: 0 <= j < last ==> front[j] == content[j];
    if Later(content, i, r) && content[last].data != r.data {
      var j :| i < j < |content| && content[j].data == r.data;
      assert front[j] == content[j];
    }
    if Later(front, i, r) {
      var j :| i < j < |front| && front[j].data == r.data;
      assert content[j] == front[j];
    }
  }

  /** A set of name servers is sent with each data once. */
  predicate NoTwins(content: seq<Record>) {
    forall i, j :: 0 <= i < j < |content| ==> content[i].data != content[j].data
  }

  /** An authoritative set of name servers taken as a refresh: every stored record stays, and none that is live gets
      a later time of expiry. */
  lemma RefreshKeeps(e: Entry, n: News, r: Record)
    requires n.auth && Refresh(e, n.content) && r in e.records && NoTwins(n.content)
    ensures exists f :: f in Replaced(e, false, n).records && f.data == r.data && (r.ttd > n.now % U32 ==> f.ttd <= r.ttd)
  {
    var f := Final(r, n.content, NS, n);
    StoreAllKeeps(e.records, n.content, NS, n, r);
    assert Replaced(e, false, n).records == StoreAll(e.records, n.content, NS, n);
    if r.ttd > n.now % U32 {
      RaisedIff(r, n.content, n);
      assert forall i: nat :: Revived(n.content, i, r, n.now % U32) ==> !Later(n.content, i, r);
    }
  }

  // ---- Data sent twice ------------------------------------------------------------------------

  lemma NoTwinsCons(r: Record, rs: seq<Record>)
    ensures NoTwins([r] + rs) <==> NoTwins(rs) && !Has(rs, r.data)
  {
    var u := [r] + rs;
    assert u[0] == r && forall i :: 0 <= i < |rs| ==> u[i + 1] == rs[i];
    if NoTwins(u) {
      forall i, j | 0 <= i < j < |rs| ensures rs[i].data != rs[j].data {
        assert u[i + 1].data != u[j + 1].data;
      }
      forall i | 0 <= i < |rs| ensures rs[i].data != r.data {
        assert u[0].data != u[i + 1].data;
      }
    }
  }

  lemma {:induction false} InsertIn(rs: seq<Record>, r: Record, x: Record)
    ensures x in Insert(rs, r) <==> x in rs || x == r
  {
    if rs != [] && !Less(false, r.data, rs[0].data) {
      InsertIn(rs[1..], r, x);
      assert rs == [rs[0]] + rs[1..];
    }
  }

  lemma {:induction false} InsertNoTwins(rs: seq<Record>, r: Record)
    requires NoTwins(rs) && !Has(rs, r.data)
    ensures NoTwins(Insert(rs, r))
  {
    if rs == [] || Less(false, r.data, rs[0].data) {
      NoTwinsCons(r, rs);
    } else {
      var tail := rs[1..];
      assert rs == [rs[0]] + tail && rs[0].data != r.data;
      NoTwinsCons(rs[0], tail);
      assert forall i :: 0 <= i < |tail| ==> tail[i] == rs[i + 1];
      InsertNoTwins(tail, r);
      forall x | x in Insert(tail, r) ensures x.data != rs[0].data {
        InsertIn(tail, r, x);
      }
      NoTwinsCons(rs[0], Insert(tail, r));
    }
  }

  lemma {:induction false} SortIn(rs: seq<Record>, x: Record)
    ensures x in Sort(rs) <==> x in rs
  {
    SortSorts(rs);
    assert x in rs <==> x in multiset(rs);
    assert x in Sort(rs) <==> x in multiset(Sort(rs));
  }

  lemma {:induction false} SortNoTwins(rs: seq<Record>)
    requires NoTwins(rs)
    ensures NoTwins(Sort(rs))
  {
    if rs != [] {
      var front, last := rs[..|rs| - 1], rs[|rs| - 1];
      SortNoTwins(front);
      forall x | x in Sort(front) ensures x.data != last.data {
        SortIn(front, x);
      }
      InsertNoTwins(Sort(front), last);
    }
  }

  lemma StoreOneNoTwins(rs: seq<Record>, i: Record, qtype: nat, n: News)
    requires NoTwins(rs)
    ensures NoTwins(StoreOne(rs, i, qtype, n))
  {
    if !Has(rs, i.data) {
      SortNoTwins(rs + [i]);
    }
  }

  lemma {:induction false} StoreAllNoTwins(rs: seq<Record>, content: seq<Record>, qtype: nat, n: News)
    requires NoTwins(rs)
    ensures NoTwins(StoreAll(rs, content, qtype, n))
  {
    if content != [] {
      var front := content[..|content| - 1];
      StoreAllNoTwins(rs, front, qtype, n);
      StoreOneNoTwins(StoreAll(rs, front, qtype, n), content[|content| - 1], qtype, n);
    }
  }

  /** One live record of an entry that is refreshed: it stays, and its time of expiry is raised exactly when
      times may be lowered and the news revive it. When no data is stored twice, that is to say that the entry
      then has the data with a later time. */
  lemma {:induction false} RefreshRaisesIff(e: Entry, n: News, r: Record)
    requires n.auth && Refresh(e, n.content) && r in e.records && r.ttd > n.now % U32
    ensures var f, rs := Final(r, n.content, NS, n), Replaced(e, false, n).records;
            var raised := n.followRFC2181 && exists i: nat :: Revived(n.content, i, r, n.now % U32) && Later(n.content, i, r);
            && f in rs && (f.ttd > r.ttd <==> raised)
            && (NoTwins(e.records) ==> ((exists x :: x in rs && x.data == r.data && x.ttd > r.ttd) <==> raised))
  {
    var rs, f := Replaced(e, false, n).records, Final(r, n.content, NS, n);
    assert rs == StoreAll(e.records, n.content, NS, n);
    StoreAllKeeps(e.records, n.content, NS, n, r);
    RaisedIff(r, n.content, n);
    if NoTwins(e.records) {
      StoreAllNoTwins(e.records, n.content, NS, n);
      hide StoreAll, Final, Replaced, Refresh;
      OneOfEach(rs, f);
    }
  }

  lemma OneOfEach(rs: seq<Record>, f: Record)
    requires NoTwins(rs) && f in rs
    ensures forall x :: x in rs && x.data == f.data ==> x == f
  {
  }

  /** Such a refresh exists: two name servers, of which the second is sent twice, first expired and then with more
      than it had. */
  lemma {:induction false} RefreshRaises(e: Entry, n: News)
    requires e.auth && e.qtype == NS && e.records == [Record(10, [1]), Record(100, [2])]
    requires n == News(60, [Record(60, [2]), Record(150, [2])], true, true)
    ensures Refresh(e, n.content) && Record(100, [2]) in e.records && 100 > n.now % U32
    ensures exists f :: f in Replaced(e, false, n).records && f.data == [2] && f.ttd > 100
  {
    var r := e.records[1];
    assert Revived(n.content, 0, r, n.now % U32);
    assert n.content[1].data == r.data && Later(n.content, 0, r);
    assert NoTwins(e.records) by {
      assert [1 as Byte][0] != [2 as Byte][0];
    }
    RefreshRaisesIff(e, n, r);
  }

  // ---- The types that are cleared first -------------------------------------------------------

  /** The latest time of expiry that was sent for some data. */
  function Latest(content: seq<Record>, data: Bytes): nat {
    if content == [] then 0
    else
      var t, last := Latest(content[..|content| - 1], data), content[|content| - 1];
      if last.data == data && last.ttd > t then last.ttd else t
  }

  ghost predicate LatestOfEach(rs: seq<Record>, content: seq<Record>) {
    forall x :: x in rs <==> Has(content, x.data) && x.ttd == Latest(content, x.data)
  }

  lemma {:induction false} NeverSent(content: seq<Record>, data: Bytes)
    requires !Has(content, data)
    ensures Latest(content, data) == 0
  {
    if content != [] {
      var front := content[..|content| - 1];
      assert forall i :: 0 <= i < |front| ==> front[i] == content[i];
      NeverSent(front, data);
    }
  }

  lemma {:induction false} HasSnoc(content: seq<Record>, i: Record, data: Bytes)
    ensures Has(content + [i], data) <==> Has(content, data) || i.data == data
  {
    var u := content + [i];
    assert u[|content|] == i && forall k :: 0 <= k < |content| ==> u[k] == content[k];
    if Has(content, data) {
      var k :| 0 <= k < |content| && content[k].data == data;
      assert u[k].data == data;
    }
  }

  lemma {:induction false} LatestSnoc(content: seq<Record>, i: Record, data: Bytes)
    ensures Latest(content + [i], data) ==
            if i.data == data && i.ttd > Latest(content, data) then i.ttd else Latest(content, data)
  {
    assert (content + [i])[..|content|] == content;
  }

  /** What one more record does to a vector that holds the latest of each. */
  lemma {:induction false} StoreLatest(rs: seq<Record>, content: seq<Record>, i: Record, qtype: nat, n: News)
    requires !n.auth && NoTwins(rs) && LatestOfEach(rs, content)
    ensures LatestOfEach(StoreOne(rs, i, qtype, n), content + [i])
  {
    var u := StoreOne(rs, i, qtype, n);
    forall x ensures x in u <==> Has(content + [i], x.data) && x.ttd == Latest(content + [i], x.data) {
      HasSnoc(content, i, x.data);
      LatestSnoc(content, i, x.data);
      hide Has, Latest;
      if x.data != i.data {
        OthersStay(rs, i, qtype, n, x);
      } else {
        OneStored(rs, content, i, qtype, n, x);
      }
    }
  }

  lemma {:induction false} OthersStay(rs: seq<Record>, i: Record, qtype: nat, n: News, x: Record)
    requires x.data != i.data
    ensures x in StoreOne(rs, i, qtype, n) <==> x in rs
  {
    var u := StoreOne(rs, i, qtype, n);
    if Has(rs, i.data) {
      if x in rs {
        StoreOneKeeps(rs, i, qtype, n, x);
      }
      if x in u {
        var k :| 0 <= k < |u| && u[k] == x;
        assert u[k] == Again(rs[k], i, qtype, n);
      }
    } else {
      SortIn(rs + [i], x);
    }
  }

  lemma {:induction false} OneStored(rs: seq<Record>, content: seq<Record>, i: Record, qtype: nat, n: News, x: Record)
    requires !n.auth && NoTwins(rs) && LatestOfEach(rs, content) && x.data == i.data
    ensures x in StoreOne(rs, i, qtype, n) <==>
            x.ttd == if i.ttd > Latest(content, i.data) then i.ttd else Latest(content, i.data)
  {
    var u := StoreOne(rs, i, qtype, n);
    if Has(rs, i.data) {
      var k :| 0 <= k < |rs| && rs[k].data == i.data;
      assert rs[k] in rs && rs[k].ttd == Latest(content, i.data);
      assert u[k] == Again(rs[k], i, qtype, n);
      forall j | 0 <= j < |u| && u[j].data == i.data ensures j == k {
        assert u[j] == Again(rs[j], i, qtype, n);
      }
      assert u[k] in u;
    } else {
      SortIn(rs + [i], x);
      assert x !in rs;
      if Has(content, i.data) {
        assert Record(Latest(content, i.data), i.data) in rs;
      } else {
        NeverSent(content, i.data);
      }
    }
  }

  lemma {:induction false} StoresLatest(content: seq<Record>, qtype: nat, n: News)
    requires !n.auth
    ensures NoTwins(StoreAll([], content, qtype, n)) && LatestOfEach(StoreAll([], content, qtype, n), content)
  {
    StoreAllNoTwins([], content, qtype, n);
    if content != [] {
      var front := content[..|content| - 1];
      StoresLatest(front, qtype, n);
      StoreAllNoTwins([], front, qtype, n);
      StoreLatest(StoreAll([], front, qtype, n), front, content[|content| - 1], qtype, n);
      assert content == front + [content[|content| - 1]];
    }
  }

  /** An authoritative CNAME or SOA entry gives way to data without authority, live or not: none of its records is
      kept, and it holds exactly the data sent, sorted, each once and with the latest time sent for it. */
  lemma {:induction false} CnameOverwritten(e: Entry, n: News)
    requires e.auth && !n.auth && OnlyOne(e.qtype)
    ensures var r := Replaced(e, false, n);
            && r == e.(auth := false, records := r.records) && r.records == StoreAll([], n.content, e.qtype, n)
            && Sorted(r.records) && NoTwins(r.records)
            && forall x :: x in r.records <==> Has(n.content, x.data) && x.ttd == Latest(n.content, x.data)
  {
    StoresLatest(n.content, e.qtype, n);
    StoreAllSorts([], n.content, e.qtype, n);
  }

  // ---- Order ----------------------------------------------------------------------------------

  lemma StoreOneSorts(rs: seq<Record>, i: Record, qtype: nat, n: News)
    requires Sorted(rs)
    ensures Sorted(StoreOne(rs, i, qtype, n))
  {
    if !Has(rs, i.data) {
      SortSorts(rs + [i]);
    }
  }

  lemma {:induction false} StoreAllSorts(rs: seq<Record>, content: seq<Record>, qtype: nat, n: News)
    requires Sorted(rs)
    ensures Sorted(StoreAll(rs, content, qtype, n))
  {
    if content != [] {
      var front := content[..|content| - 1];
      StoreAllSorts(rs, front, qtype, n);
      StoreOneSorts(StoreAll(rs, front, qtype, n), content[|content| - 1], qtype, n);
    }
  }

  /** The vector stays sorted, so that the next replace can search it by halving. */
  lemma ReplacedSorts(e: Entry, isNew: bool, n: News)
    requires Sorted(e.records)
    ensures Sorted(Replaced(e, isNew, n).records)
  {
    hide Sort, StoreAll;
    var ce := Cleared(e);
    SortSorts(n.content);
    SortSorts(ce.records + n.content);
    assert Sorted(ce.records);
    StoreAllSorts(ce.records, n.content, e.qtype, n);
  }

  // ---- The time an entry expires --------------------------------------------------------------

  function Earliest(rs: seq<Record>, bound: nat): (t: nat)
    ensures t <= bound && forall i :: 0 <= i < |rs| ==> t <= rs[i].ttd
    ensures t == bound || exists i :: 0 <= i < |rs| && t == rs[i].ttd
  {
    if rs == [] then bound
    else
      var t := Earliest(rs[..|rs| - 1], bound);
      if rs[|rs| - 1].ttd < t then rs[|rs| - 1].ttd else t
  }

  /** getTTD: the earliest of the times, and the highest number for no records. */
  method GetTTD(rs: seq<Record>) returns (t: nat)
    requires forall i :: 0 <= i < |rs| ==> rs[i].ttd < U32
    ensures t == Earliest(rs, U32 - 1)
  {
    if |rs| == 1 {
      assert rs[..0] == [];
      return rs[0].ttd;
    }
    t := U32 - 1;
    for i := 0 to |rs|
      invariant t == Earliest(rs[..i], U32 - 1)
    {
      assert rs[..i + 1][..i] == rs[..i];
      t := if rs[i].ttd < t then rs[i].ttd else t;
    }
    assert rs[..|rs|] == rs;
  }
}
