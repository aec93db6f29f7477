/** The vector of stored records of a cache entry, sorted by their data so that it can be searched by halving. */
module RecordVector {
  import opened Octets
  import opened ByteOrder

  /** A stored record, or one to be stored; the time is the second it expires. */
  datatype Record = Record(ttd: nat, data: Bytes)

  predicate Sorted(rs: seq<Record>) {
    forall i, j :: 0 <= i < j < |rs| ==> !Less(false, rs[j].data, rs[i].data)
  }

  /** Puts a record behind those that are not greater. */
  function Insert(rs: seq<Record>, r: Record): (u: seq<Record>)
    ensures |u| == |rs| + 1
  {
    if rs == [] || Less(false, r.data, rs[0].data) then [r] + rs else [rs[0]] + Insert(rs[1..], r)
  }

  /** std::sort; records with the same data stay in order. */
  function Sort(rs: seq<Record>): (u: seq<Record>)
    ensures |u| == |rs|
  {
    if rs == [] then [] else Insert(Sort(rs[..|rs| - 1]), rs[|rs| - 1])
  }

  predicate Smallest(r: Record, rs: seq<Record>) {
    forall i :: 0 <= i < |rs| ==> !Less(false, rs[i].data, r.data)
  }

  lemma SortedCons(r: Record, rs: seq<Record>)
    ensures Sorted([r] + rs) <==> Sorted(rs) && Smallest(r, rs)
  {
    var u := [r] + rs;
    assert u[0] == r && forall i :: 0 <= i < |rs| ==> u[i + 1] == rs[i];
    if Sorted(u) {
      forall i, j | 0 <= i < j < |rs| ensures !Less(false, rs[j].data, rs[i].data) {
        assert u[i + 1] == rs[i] && u[j + 1] == rs[j];
      }
      forall i | 0 <= i < |rs| ensures !Less(false, rs[i].data, r.data) {
        assert u[i + 1] == rs[i] && u[0] == r;
      }
    }
  }

  lemma {:induction false} InsertSorts(rs: seq<Record>, r: Record)
    requires Sorted(rs)
    ensures Sorted(Insert(rs, r)) && multiset(Insert(rs, r)) == multiset(rs) + multiset{r}
    ensures forall s :: Smallest(s, rs) && !Less(false, r.data, s.data) ==> Smallest(s, Insert(rs, r))
  {
    if rs == [] || Less(false, r.data, rs[0].data) {
      FirstIsSmallest(rs, r);
      SortedCons(r, rs);
      SmallestCons(rs, r);
    } else {
      var tail := rs[1..];
      assert rs == [rs[0]] + tail;
      SortedCons(rs[0], tail);
      InsertSorts(tail, r);
      SortedCons(rs[0], Insert(tail, r));
      SmallestCons(tail, rs[0]);
      SmallestCons(Insert(tail, r), rs[0]);
    }
  }

  lemma FirstIsSmallest(rs: seq<Record>, r: Record)
    requires Sorted(rs) && (rs == [] || Less(false, r.data, rs[0].data))
    ensures Smallest(r, rs)
  {
    forall i | 0 <= i < |rs| ensures !Less(false, rs[i].data, r.data) {
      if Less(false, rs[i].data, r.data) {
        LessTransitive(false, rs[i].data, r.data, rs[0].data);
        LessTotal(false, rs[0].data, rs[0].data);
      }
    }
  }

  lemma SmallestCons(rs: seq<Record>, r: Record)
    ensures forall s :: Smallest(s, [r] + rs) <==> Smallest(s, rs) && !Less(false, r.data, s.data)
  {
    forall s ensures Smallest(s, [r] + rs) <==> Smallest(s, rs) && !Less(false, r.data, s.data) {
      if Smallest(s, [r] + rs) {
        assert ([r] + rs)[0] == r;
        assert forall i :: 0 <= i < |rs| ==> ([r] + rs)[i + 1] == rs[i];
      }
    }
  }

  lemma {:induction false} SortSorts(rs: seq<Record>)
    ensures Sorted(Sort(rs)) && multiset(Sort(rs)) == multiset(rs)
  {
    if rs != [] {
      hide Insert, Sorted;
      var front := rs[..|rs| - 1];
      SortSorts(front);
      InsertSorts(Sort(front), rs[|rs| - 1]);
      assert rs == front + [rs[|rs| - 1]];
    }
  }

  /** equal_range by halving. */
  method EqualRange(rs: seq<Record>, data: Bytes) returns (lo: nat, hi: nat)
    requires Sorted(rs)
    ensures lo <= hi <= |rs|
    ensures forall i :: 0 <= i < |rs| ==> (lo <= i < hi <==> rs[i].data == data)
  {
    lo := Bound(rs, data, true);
    hi := Bound(rs, data, false);
    forall i | 0 <= i < |rs| ensures lo <= i < hi <==> rs[i].data == data {
      LessTotal(false, rs[i].data, data);
    }
    if lo > hi {
      LessTotal(false, rs[hi].data, data);
    }
  }

  /** The first position not below the data, or the first one above it. */
  method Bound(rs: seq<Record>, data: Bytes, lower: bool) returns (b: nat)
    requires Sorted(rs)
    ensures b <= |rs|
    ensures forall i :: 0 <= i < |rs| ==> (i < b <==> Below(rs[i].data, data, lower))
  {
    b := 0;
    var end := |rs|;
    while b < end
      invariant b <= end <= |rs|
      invariant forall i :: 0 <= i < b ==> Below(rs[i].data, data, lower)
      invariant forall i :: end <= i < |rs| ==> !Below(rs[i].data, data, lower)
    {
      var mid := (b + end) / 2;
      if Below(rs[mid].data, data, lower) {
        forall i | 0 <= i <= mid ensures Below(rs[i].data, data, lower) {
          BelowDown(rs[i].data, rs[mid].data, data, lower);
        }
        b := mid + 1;
      } else {
        forall i | mid <= i < |rs| ensures !Below(rs[i].data, data, lower) {
          if Below(rs[i].data, data, lower) {
            BelowDown(rs[mid].data, rs[i].data, data, lower);
          }
        }
        end := mid;
      }
    }
  }

  predicate Below(a: Bytes, data: Bytes, lower: bool) {
    if lower then Less(false, a, data) else !Less(false, data, a)
  }

  lemma {:induction false} BelowDown(a: Bytes, b: Bytes, data: Bytes, lower: bool)
    requires (a == b || !Less(false, b, a)) && Below(b, data, lower)
    ensures Below(a, data, lower)
  {
    LessTotal(false, a, b);
    if Less(false, a, b) {
      if lower {
        LessTransitive(false, a, b, data);
      } else if Less(false, data, a) {
        LessTransitive(false, data, a, b);
      }
    }
  }
}
