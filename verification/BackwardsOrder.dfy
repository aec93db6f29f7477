/** The order of the packet cache: names compared from the back, without case. */
module BackwardsOrder {
  import opened Octets
  import opened ByteOrder

  /** A name without case, back to front. */
  function Back(name: Bytes): (r: Bytes)
    ensures |r| == |name|
    ensures forall i :: 0 <= i < |name| ==> r[i] == ToLower(name[|name| - 1 - i])
  {
    seq(|name|, i requires 0 <= i < |name| => ToLower(name[|name| - 1 - i]))
  }

  /** The first difference decides, and the end of a name counts as a zero octet. */
  predicate TermLess(a: Bytes, b: Bytes)
    decreases |a|
  {
    if a == [] && b == [] then false
    else if a == [] then 0 < Rank(b[0], true)
    else if b == [] then Rank(a[0], true) < 0
    else if a[0] != b[0] then Rank(a[0], true) < Rank(b[0], true)
    else TermLess(a[1..], b[1..])
  }

  predicate BackLess(a: Bytes, b: Bytes) {
    TermLess(Back(a), Back(b))
  }

  predicate NoNul(s: Bytes) {
    forall i :: 0 <= i < |s| ==> s[i] != 0
  }

  /** CIBackwardsStringCompare. */
  method CIBackwardsStringCompare(strA: Bytes, strB: Bytes) returns (r: bool)
    ensures r == BackLess(strA, strB)
  {
    ghost var x, y := Back(strA), Back(strB);
    var ra, rb := |strA|, |strB|;
    var a, b := 0, 0;
    ghost var n := 0;
    while ra > 0 && rb > 0 && ToLower(strA[ra - 1]) == ToLower(strB[rb - 1])
      invariant 0 <= n && 0 <= ra && 0 <= rb && ra + n == |strA| && rb + n == |strB| && a == b
      invariant TermLess(x, y) == TermLess(x[n..], y[n..])
      decreases ra
    {
      assert x[n..][0] == ToLower(strA[ra - 1]) && y[n..][0] == ToLower(strB[rb - 1]);
      assert x[n..][1..] == x[n + 1..] && y[n..][1..] == y[n + 1..];
      a, b := Rank(ToLower(strA[ra - 1]), true), Rank(ToLower(strB[rb - 1]), true);
      n := n + 1;
      ra, rb := ra - 1, rb - 1;
    }
    assert ra > 0 ==> x[n..][0] == ToLower(strA[ra - 1]);
    assert rb > 0 ==> y[n..][0] == ToLower(strB[rb - 1]);
    if ra > 0 && rb > 0 {
      a, b := Rank(ToLower(strA[ra - 1]), true), Rank(ToLower(strB[rb - 1]), true);
    }
    if ra > 0 && rb == 0 {
      a, b := Rank(strA[ra - 1], true), 0;
    } else if rb > 0 && ra == 0 {
      b, a := Rank(strB[rb - 1], true), 0;
    }
    r := a < b;
  }

  // ---- A strict weak order --------------------------------------------------------------------

  lemma TailNoNul(a: Bytes)
    requires NoNul(a) && a != []
    ensures NoNul(a[1..]) && a[0] != 0
  {
  }

  lemma {:induction false} TermTotal(a: Bytes, b: Bytes)
    requires NoNul(a) && NoNul(b)
    ensures a != b <==> TermLess(a, b) || TermLess(b, a)
    ensures !(TermLess(a, b) && TermLess(b, a))
    decreases |a|
  {
    if a != [] && b != [] {
      TailNoNul(a);
      TailNoNul(b);
      TermTotal(a[1..], b[1..]);
      assert a == [a[0]] + a[1..] && b == [b[0]] + b[1..];
    } else if a != [] {
      TailNoNul(a);
    } else if b != [] {
      TailNoNul(b);
    }
  }

  lemma {:induction false} TermTransitive(a: Bytes, b: Bytes, c: Bytes)
    requires TermLess(a, b) && TermLess(b, c) && NoNul(a) && NoNul(b) && NoNul(c)
    ensures TermLess(a, c)
    decreases |b|
  {
    if a != [] && b != [] && c != [] && a[0] == b[0] == c[0] {
      TailNoNul(a);
      TailNoNul(b);
      TailNoNul(c);
      TermTransitive(a[1..], b[1..], c[1..]);
    }
  }

  lemma BackNoNul(name: Bytes)
    requires NoNul(name)
    ensures NoNul(Back(name))
  {
  }

  lemma BackSame(a: Bytes, b: Bytes)
    ensures Back(a) == Back(b) <==> Lower(a) == Lower(b)
  {
    if Back(a) == Back(b) {
      forall i | 0 <= i < |a| ensures Lower(a)[i] == Lower(b)[i] {
        assert Back(a)[|a| - 1 - i] == Back(b)[|a| - 1 - i];
      }
    } else if |a| == |b| {
      var i :| 0 <= i < |a| && Back(a)[i] != Back(b)[i];
      assert Lower(a)[|a| - 1 - i] != Lower(b)[|a| - 1 - i];
    }
  }

  /** On names without zero octets: irreflexive, asymmetric and transitive, and two names are in no order exactly when
      they are equal but for case. */
  lemma StrictWeakOrder(a: Bytes, b: Bytes, c: Bytes)
    requires NoNul(a) && NoNul(b) && NoNul(c)
    ensures !BackLess(a, a) && !(BackLess(a, b) && BackLess(b, a))
    ensures BackLess(a, b) && BackLess(b, c) ==> BackLess(a, c)
    ensures !BackLess(a, b) && !BackLess(b, a) <==> Lower(a) == Lower(b)
  {
    BackNoNul(a);
    BackNoNul(b);
    BackNoNul(c);
    TermTotal(Back(a), Back(a));
    TermTotal(Back(a), Back(b));
    BackSame(a, b);
    if BackLess(a, b) && BackLess(b, c) {
      TermTransitive(Back(a), Back(b), Back(c));
    }
  }

  /** A name and the same with more in front of it, of which the nearest octet is zero, both back to front. */
  predicate ZeroBehind(x: Bytes, y: Bytes) {
    |x| < |y| && x <= y && y[|x|] == 0
  }

  lemma {:induction false} ZeroBehindTail(a: Bytes, b: Bytes)
    requires a != [] && b != [] && a[0] == b[0]
    ensures ZeroBehind(a, b) <==> ZeroBehind(a[1..], b[1..])
  {
    if ZeroBehind(a[1..], b[1..]) {
      assert a == [a[0]] + a[1..] && b == [b[0]] + b[1..];
    }
  }

  lemma {:induction false} TermTies(a: Bytes, b: Bytes)
    ensures !TermLess(a, b) && !TermLess(b, a) <==> a == b || ZeroBehind(a, b) || ZeroBehind(b, a)
    decreases |a|
  {
    if a != [] && b != [] && a[0] == b[0] {
      TermTies(a[1..], b[1..]);
      ZeroBehindTail(a, b);
      ZeroBehindTail(b, a);
      assert a == [a[0]] + a[1..] && b == [b[0]] + b[1..];
    }
  }

  /** Two names that differ in more than case are in no order exactly when one of them ends in the other
      with a zero octet in front. */
  lemma {:induction false} WrongTieIff(a: Bytes, b: Bytes)
    ensures (!BackLess(a, b) && !BackLess(b, a) <==> Lower(a) == Lower(b))
        <==> !ZeroBehind(Back(a), Back(b)) && !ZeroBehind(Back(b), Back(a))
  {
    TermTies(Back(a), Back(b));
    BackSame(a, b);
  }

  /** With zero octets it is not one: being in no order is not transitive. */
  lemma NulBreaksTheOrder()
    ensures var a, b, c := [1, 0, 97], [97], [0, 97];
            && !BackLess(a, b) && !BackLess(b, a) && !BackLess(b, c) && !BackLess(c, b)
            && BackLess(c, a)
  {
    assert Back([1, 0, 97]) == [97, 0, 1] && Back([97]) == [97] && Back([0, 97]) == [97, 0];
    assert [97, 0, 1][1..] == [0, 1] && [97][1..] == [] && [97, 0][1..] == [0] && [0, 1][1..] == [1] && [0][1..] == [];
    assert TermLess([], [1]) && TermLess([0], [0, 1]) && TermLess([97, 0], [97, 0, 1]);
    assert !TermLess([0, 1], []) && !TermLess([], [0, 1]) && !TermLess([0], []) && !TermLess([], [0]);
  }

  // ---- Suffixes -------------------------------------------------------------------------------

  const DOT_RANK := 46

  /** iends_with. */
  predicate IEndsWith(name: Bytes, suffix: Bytes) {
    |suffix| <= |name| && Lower(name[|name| - |suffix|..]) == Lower(suffix)
  }

  /** Equal to the suffix, or below it in the tree of names. */
  predicate InZone(name: Bytes, suffix: Bytes) {
    Lower(name) == Lower(suffix) || IEndsWith(name, [DOT] + suffix)
  }

  /** The suffix with something in front of it that sorts between nothing and a dot, such as a hyphen. */
  predicate Blocks(name: Bytes, suffix: Bytes) {
    |suffix| < |name| && IEndsWith(name, suffix) && 0 < Rank(ToLower(name[|name| - |suffix| - 1]), true) < DOT_RANK
  }

  lemma EndsWithIsPrefix(name: Bytes, suffix: Bytes)
    ensures IEndsWith(name, suffix) <==> Back(suffix) <= Back(name)
  {
    if |suffix| <= |name| {
      var tail := name[|name| - |suffix|..];
      BackSame(tail, suffix);
      assert Back(tail) == Back(name)[..|suffix|];
    }
  }

  lemma InZoneIsPrefix(name: Bytes, suffix: Bytes)
    ensures InZone(name, suffix) <==> Back(name) == Back(suffix) || Back(suffix) + [DOT] <= Back(name)
  {
    EndsWithIsPrefix(name, [DOT] + suffix);
    BackSame(name, suffix);
    assert Back([DOT] + suffix) == Back(suffix) + [DOT];
  }

  predicate BlocksBack(x: Bytes, p: Bytes) {
    |p| < |x| && p <= x && 0 < Rank(x[|p|], true) < DOT_RANK
  }

  lemma BlocksIsPrefix(name: Bytes, suffix: Bytes)
    ensures Blocks(name, suffix) <==> BlocksBack(Back(name), Back(suffix))
  {
    EndsWithIsPrefix(name, suffix);
  }

  /** What sorts from a suffix up to a name below it is in the zone or blocks. */
  lemma {:induction false} BetweenBack(p: Bytes, x: Bytes, y: Bytes)
    requires NoNul(p) && NoNul(x) && NoNul(y) && p + [DOT] <= y && !TermLess(x, p) && !TermLess(y, x)
    ensures x == p || p + [DOT] <= x || BlocksBack(x, p)
    decreases |p|
  {
    if p == [] {
      if x != [] {
        TailNoNul(x);
      }
    } else {
      assert y[0] == p[0];
      TailNoNul(p);
      TailNoNul(y);
      if x != [] && x[0] == p[0] {
        TailNoNul(x);
        assert p[1..] + [DOT] == (p + [DOT])[1..] <= y[1..];
        BetweenBack(p[1..], x[1..], y[1..]);
        assert x == [p[0]] + x[1..] && p == [p[0]] + p[1..];
        assert p + [DOT] == [p[0]] + (p[1..] + [DOT]);
      }
    }
  }

  /** What blocks sorts behind the suffix and before the names below it. */
  lemma {:induction false} BlocksSorts(p: Bytes, x: Bytes, y: Bytes)
    requires NoNul(p) && NoNul(x) && NoNul(y) && BlocksBack(x, p) && p + [DOT] <= y
    ensures TermLess(p, x) && TermLess(x, y)
    decreases |p|
  {
    assert y[|p|] == DOT;
    if p != [] {
      assert y[0] == p[0] == x[0];
      TailNoNul(p);
      TailNoNul(y);
      TailNoNul(x);
      assert p[1..] + [DOT] == (p + [DOT])[1..] <= y[1..];
      BlocksSorts(p[1..], x[1..], y[1..]);
    }
  }
}
