/** Domain names in the two text forms the codec exchanges: the escaped dotted text the reader
    produces and the label spans the writer cuts that text into. */
module DnsNames {
  import opened Octets

  type Label = Bytes
  type Name = seq<Label>

  /** What the reader can take: a length octet of 192 and more is a pointer. The 63 of section 2.3.4 of
      RFC 1035 is well inside. */
  const MAX_LABEL := 191

  predicate ValidLabel(l: Label) {
    1 <= |l| <= MAX_LABEL
  }

  predicate ValidName(n: Name) {
    forall i :: 0 <= i < |n| ==> ValidLabel(n[i])
  }

  /** An empty label would end the name. */
  predicate NoEmptyLabel(n: Name) {
    forall i :: 0 <= i < |n| ==> n[i] != []
  }

  predicate Special(c: Byte) {
    c == DOT || c == BACKSLASH
  }

  /** The reader's escaping of one label. */
  function Escape(l: Bytes): Bytes {
    if l == [] then []
    else (if Special(l[0]) then [BACKSLASH, l[0]] else [l[0]]) + Escape(l[1..])
  }

  function Dotted(n: Name): Bytes {
    if n == [] then [] else Escape(n[0]) + [DOT] + Dotted(n[1..])
  }

  /** The fully qualified text of a name. */
  function Text(n: Name): Bytes {
    if n == [] then [DOT] else Dotted(n)
  }

  /** The text under which the writer remembers a name: without the final dot. */
  function Chop(n: Name): Bytes
    requires n != []
  {
    DottedNonEmpty(n);
    Dotted(n)[..|Dotted(n)| - 1]
  }

  lemma {:induction false} DottedNonEmpty(n: Name)
    requires n != []
    ensures |Dotted(n)| > 0 && Dotted(n)[|Dotted(n)| - 1] == DOT
  {
    if |n| > 1 { DottedNonEmpty(n[1..]); }
  }

  lemma {:induction false} EscapeGrows(l: Bytes)
    ensures |l| <= |Escape(l)|
  {
    if l != [] { EscapeGrows(l[1..]); }
  }

  /** boost::replace_all for a two octet pattern and a one octet replacement. */
  function ReplaceAll(s: Bytes, a: Byte, b: Byte, c: Byte): Bytes {
    if |s| < 2 then s
    else if s[0] == a && s[1] == b then [c] + ReplaceAll(s[2..], a, b, c)
    else [s[0]] + ReplaceAll(s[1..], a, b, c)
  }

  /** The writer's unescaping: first "\." and only then "\\". */
  function Unescape(part: Bytes): Bytes {
    ReplaceAll(ReplaceAll(part, BACKSLASH, DOT, DOT), BACKSLASH, BACKSLASH, BACKSLASH)
  }

  function DoubleBackslashes(l: Bytes): Bytes {
    if l == [] then []
    else (if l[0] == BACKSLASH then [BACKSLASH, BACKSLASH] else [l[0]]) + DoubleBackslashes(l[1..])
  }

  lemma {:induction false} ReplaceHit(t: Bytes, a: Byte, b: Byte, c: Byte)
    ensures ReplaceAll([a, b] + t, a, b, c) == [c] + ReplaceAll(t, a, b, c)
  {
    assert ([a, b] + t)[2..] == t;
  }

  lemma {:induction false} ReplaceMiss(x: Byte, t: Bytes, a: Byte, b: Byte, c: Byte)
    requires t == [] || x != a || t[0] != b
    ensures ReplaceAll([x] + t, a, b, c) == [x] + ReplaceAll(t, a, b, c)
  {
    assert ([x] + t)[1..] == t;
  }

  lemma {:induction false} UndotOctet(c: Byte, t: Bytes)
    requires t == [] || t[0] != DOT
    ensures ReplaceAll((if Special(c) then [BACKSLASH, c] else [c]) + t, BACKSLASH, DOT, DOT)
         == (if c == BACKSLASH then [BACKSLASH, BACKSLASH] else [c]) + ReplaceAll(t, BACKSLASH, DOT, DOT)
  {
    hide ReplaceAll;
    if c == DOT {
      ReplaceHit(t, BACKSLASH, DOT, DOT);
    } else if c == BACKSLASH {
      ReplaceMiss(BACKSLASH, t, BACKSLASH, DOT, DOT);
      ReplaceMiss(BACKSLASH, [BACKSLASH] + t, BACKSLASH, DOT, DOT);
      assert [BACKSLASH, c] + t == [BACKSLASH] + ([BACKSLASH] + t);
    } else {
      ReplaceMiss(c, t, BACKSLASH, DOT, DOT);
    }
  }

  lemma {:induction false} UndotEscape(l: Bytes)
    ensures ReplaceAll(Escape(l), BACKSLASH, DOT, DOT) == DoubleBackslashes(l)
  {
    if l != [] {
      UndotEscape(l[1..]);
      UndotOctet(l[0], Escape(l[1..]));
    }
  }

  lemma {:induction false} HalveBackslashes(l: Bytes)
    ensures ReplaceAll(DoubleBackslashes(l), BACKSLASH, BACKSLASH, BACKSLASH) == l
  {
    if l != [] {
      var t := DoubleBackslashes(l[1..]);
      HalveBackslashes(l[1..]);
      if l[0] == BACKSLASH {
        ReplaceHit(t, BACKSLASH, BACKSLASH, BACKSLASH);
      } else {
        ReplaceMiss(l[0], t, BACKSLASH, BACKSLASH, BACKSLASH);
      }
      assert [l[0]] + l[1..] == l;
    }
  }

  /** The writer undoes the reader's escaping, whatever octets the label holds. */
  lemma {:induction false} UnescapeEscape(l: Bytes)
    ensures Unescape(Escape(l)) == l
  {
    UndotEscape(l);
    HalveBackslashes(l);
  }

  // ---- Case folding and injectivity -----------------------------------------------------------

  function LowerName(n: Name): (r: Name)
    ensures |r| == |n|
    ensures forall i :: 0 <= i < |n| ==> r[i] == Lower(n[i])
  {
    seq(|n|, i requires 0 <= i < |n| => Lower(n[i]))
  }

  lemma {:induction false} LowerEscape(l: Bytes)
    ensures Lower(Escape(l)) == Escape(Lower(l))
  {
    if l != [] {
      var h := if Special(l[0]) then [BACKSLASH, l[0]] else [l[0]];
      LowerConcat(h, Escape(l[1..]));
      LowerEscape(l[1..]);
      assert Lower(l)[1..] == Lower(l[1..]);
    }
  }

  lemma {:induction false} LowerDotted(n: Name)
    ensures Lower(Dotted(n)) == Dotted(LowerName(n))
  {
    if n != [] {
      LowerConcat(Escape(n[0]) + [DOT], Dotted(n[1..]));
      LowerConcat(Escape(n[0]), [DOT]);
      LowerEscape(n[0]);
      LowerDotted(n[1..]);
      assert LowerName(n)[1..] == LowerName(n[1..]);
    }
  }

  lemma LowerText(n: Name)
    ensures Lower(Text(n)) == Text(LowerName(n))
  {
    LowerDotted(n);
  }

  lemma {:induction false} EscapeSplits(a: Bytes, r: Bytes, b: Bytes, s: Bytes)
    requires Escape(a) + [DOT] + r == Escape(b) + [DOT] + s
    ensures a == b && r == s
    decreases |a|
  {
    var x, y := Escape(a) + [DOT] + r, Escape(b) + [DOT] + s;
    assert a == [] <==> x[0] == DOT;
    assert b == [] <==> y[0] == DOT;
    if a == [] {
      assert x[1..] == r && y[1..] == s;
    } else {
      var k := if Special(a[0]) then 2 else 1;
      assert x[0] == Escape(a)[0] && y[0] == Escape(b)[0];
      assert Special(a[0]) ==> x[1] == a[0];
      assert Special(b[0]) ==> y[1] == b[0];
      assert a[0] == b[0];
      assert x[k..] == Escape(a[1..]) + [DOT] + r;
      assert y[k..] == Escape(b[1..]) + [DOT] + s;
      EscapeSplits(a[1..], r, b[1..], s);
      assert a == [a[0]] + a[1..] && b == [b[0]] + b[1..];
    }
  }

  lemma {:induction false} DottedInjective(m: Name, n: Name)
    requires Dotted(m) == Dotted(n)
    ensures m == n
  {
    if m == [] {
      if n != [] { DottedNonEmpty(n); }
    } else if n == [] {
      DottedNonEmpty(m);
    } else {
      EscapeSplits(m[0], Dotted(m[1..]), n[0], Dotted(n[1..]));
      DottedInjective(m[1..], n[1..]);
      assert m == [m[0]] + m[1..] && n == [n[0]] + n[1..];
    }
  }

  lemma LowerChop(n: Name)
    requires n != []
    ensures Lower(Chop(n)) + [DOT] == Dotted(LowerName(n))
  {
    DottedNonEmpty(n);
    LowerInit(Dotted(n));
    LowerDotted(n);
  }

  lemma LowerInit(s: Bytes)
    requires |s| > 0
    ensures Lower(s) == Lower(s[..|s| - 1]) + [ToLower(s[|s| - 1])]
  {
  }

  /** Two names have the same chopped text up to case only if they agree label by label up to case. */
  lemma ChopInjective(m: Name, n: Name)
    requires m != [] && n != []
    requires Lower(Chop(m)) == Lower(Chop(n))
    ensures LowerName(m) == LowerName(n)
  {
    LowerChop(m);
    LowerChop(n);
    DottedInjective(LowerName(m), LowerName(n));
  }

  lemma TextInjective(m: Name, n: Name)
    requires NoEmptyLabel(m) && NoEmptyLabel(n)
    requires Lower(Text(m)) == Lower(Text(n))
    ensures LowerName(m) == LowerName(n)
  {
    LowerText(m);
    LowerText(n);
    TextOfLabels(m);
    TextOfLabels(n);
    DottedInjective(LowerName(m), LowerName(n));
  }

  /** With no empty label, only the root is written as a lone dot. */
  lemma {:induction false} TextOfLabels(n: Name)
    requires NoEmptyLabel(n)
    ensures n != [] ==> |Dotted(n)| > 1 && Dotted(LowerName(n)) != [DOT]
  {
    if n != [] {
      EscapeGrows(n[0]);
      LowerDotted(n);
    }
  }

  // ---- Cutting text into spans ----------------------------------------------------------------

  /** Begin and end offset of one label in a text. */
  datatype Span = Span(first: nat, last: nat)

  datatype Tokens = Tokens(parts: seq<Span>, unescaped: bool)

  /** The scan of labeltokUnescape from position pos with the current part starting at lpos. */
  function Tokenize(s: Bytes, pos: nat, lpos: nat): (t: Tokens)
    requires lpos <= pos <= |s| + 1
    requires pos == |s| + 1 ==> lpos < |s|
    ensures forall i :: 0 <= i < |t.parts| ==> t.parts[i].first <= t.parts[i].last <= |s| + 1 && t.parts[i].first < |s|
    decreases |s| + 1 - pos
  {
    if pos >= |s| then Tokens(if lpos < pos then [Span(lpos, pos)] else [], false)
    else if s[pos] == BACKSLASH then Tokenize(s, pos + 2, lpos).(unescaped := true)
    else if s[pos] == DOT then
      var t := Tokenize(s, pos + 1, pos + 1);
      Tokens([Span(lpos, pos)] + t.parts, t.unescaped)
    else Tokenize(s, pos + 1, lpos)
  }

  function Before(parts: seq<Span>, unescaped: bool, rest: Tokens): Tokens {
    Tokens(parts + rest.parts, unescaped || rest.unescaped)
  }

  /** Cuts a text into the begin and end offsets of its labels. */
  method LabeltokUnescape(s: Bytes) returns (parts: seq<Span>, unescapedSomething: bool)
    ensures Tokens(parts, unescapedSomething) == Tokenize(s, 0, 0)
  {
    var pos, lpos := 0, 0;
    parts, unescapedSomething := [], false;
    assert Tokenize(s, 0, 0) == Before([], false, Tokenize(s, 0, 0));
    while pos < |s|
      invariant 0 <= lpos <= pos <= |s| + 1
      invariant pos == |s| + 1 ==> lpos < |s|
      invariant Tokenize(s, 0, 0) == Before(parts, unescapedSomething, Tokenize(s, pos, lpos))
      decreases |s| - pos
    {
      if s[pos] == BACKSLASH {
        pos := pos + 1;
        unescapedSomething := true;
      } else if s[pos] == DOT {
        ghost var rest := Tokenize(s, pos + 1, pos + 1);
        assert parts + ([Span(lpos, pos)] + rest.parts) == parts + [Span(lpos, pos)] + rest.parts;
        parts := parts + [Span(lpos, pos)];
        lpos := pos + 1;
      }
      pos := pos + 1;
    }
    if lpos < pos {
      parts := parts + [Span(lpos, pos)];
    }
  }

  predicate NeedsEscape(l: Bytes) {
    l != [] && (Special(l[0]) || NeedsEscape(l[1..]))
  }

  lemma {:induction false} PlainEscape(l: Bytes)
    requires !NeedsEscape(l)
    ensures Escape(l) == l
  {
    if l != [] {
      assert !Special(l[0]);
      PlainEscape(l[1..]);
      assert l == [l[0]] + l[1..];
    }
  }

  /** The spans of the labels of n when its dotted text starts at position at. */
  function Spans(n: Name, at: nat): (r: seq<Span>)
    ensures |r| == |n|
  {
    if n == [] then []
    else [Span(at, at + |Escape(n[0])|)] + Spans(n[1..], at + |Escape(n[0])| + 1)
  }

  predicate AnyEscape(n: Name) {
    n != [] && (NeedsEscape(n[0]) || AnyEscape(n[1..]))
  }

  lemma {:induction false} TokenizeLabel(s: Bytes, pos: nat, lpos: nat, l: Bytes, rest: Bytes)
    requires lpos <= pos <= |s|
    requires s[pos..] == Escape(l) + [DOT] + rest
    ensures pos + |Escape(l)| < |s| && s[pos + |Escape(l)| + 1..] == rest
    ensures var q := pos + |Escape(l)|; var t := Tokenize(s, q + 1, q + 1);
            Tokenize(s, pos, lpos) == Tokens([Span(lpos, q)] + t.parts, t.unescaped || NeedsEscape(l))
    decreases |l|
  {
    var u := s[pos..];
    assert u[0] == s[pos];
    if l == [] {
      assert u[1..] == rest && s[pos + 1..] == u[1..];
    } else {
      var k := if Special(l[0]) then 2 else 1;
      assert u[0] == Escape(l)[0];
      assert u[k..] == Escape(l[1..]) + [DOT] + rest;
      assert s[pos + k..] == u[k..];
      TokenizeLabel(s, pos + k, lpos, l[1..], rest);
      assert l == [l[0]] + l[1..];
    }
  }

  /** Cutting the dotted text of a name gives back exactly its labels. */
  lemma {:induction false} TokenizeDotted(s: Bytes, pos: nat, n: Name)
    requires pos <= |s|
    requires s[pos..] == Dotted(n)
    ensures Tokenize(s, pos, pos) == Tokens(Spans(n, pos), AnyEscape(n))
    decreases |n|
  {
    if n != [] {
      TokenizeLabel(s, pos, pos, n[0], Dotted(n[1..]));
      TokenizeDotted(s, pos + |Escape(n[0])| + 1, n[1..]);
    }
  }
}
