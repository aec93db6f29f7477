/** Streaming MD5: the block buffer, the two word length counter and the final padding, over an arbitrary
    compression function. Sections 3.1 to 3.4 of RFC 1321. */
module Md5Stream {
  import opened Octets

  const BLOCK := 64

  datatype State = State(a: Word32, b: Word32, c: Word32, d: Word32)

  /** The 64 rounds over one block: md5_process. */
  type Compression = (State, Bytes) -> State

  const INITIAL := State(0x67452301, 0xEFCDAB89, 0x98BADCFE, 0x10325476)

  // ---- The digest of a message ----------------------------------------------------------------

  function Absorb(f: Compression, s: State, m: Bytes): State
    requires |m| % BLOCK == 0
    decreases |m|
  {
    if m == [] then s else Absorb(f, f(s, m[..BLOCK]), m[BLOCK..])
  }

  function Le32(v: Word32): (r: Bytes)
    ensures |r| == 4
  {
    [v % 256, v / 256 % 256, v / 0x1_0000 % 256, v / 0x100_0000 % 256]
  }

  function Zeros(n: nat): (r: Bytes)
    ensures |r| == n && forall i :: 0 <= i < n ==> r[i] == 0
  {
    seq(n, i => 0)
  }

  /** A one bit, then as few zero bits as bring the length to 56 modulo 64. */
  function Padding(n: nat): (r: Bytes)
    ensures 1 <= |r| <= BLOCK
  {
    [0x80] + Zeros((55 - n) % BLOCK)
  }

  lemma PaddingLength(n: nat, last: nat)
    requires last == n % BLOCK
    ensures |Padding(n)| == if last < 56 then 56 - last else 120 - last
    ensures (n + |Padding(n)| + 8) % BLOCK == 0
  {
    var blocks := n / BLOCK;
    if last < 56 {
      DivUnique(55 - n, BLOCK, 0 - blocks, 55 - last);
      DivUnique(n + 64 - last, BLOCK, blocks + 1, 0);
    } else {
      DivUnique(55 - n, BLOCK, 0 - blocks - 1, 119 - last);
      DivUnique(n + 128 - last, BLOCK, blocks + 2, 0);
    }
  }

  /** The length in bits modulo 2^64, low word first. */
  function BitLength(n: nat): (r: Bytes)
    ensures |r| == 8
  {
    Le32(8 * n % 0x1_0000_0000) + Le32(8 * n / 0x1_0000_0000 % 0x1_0000_0000)
  }

  function Padded(m: Bytes): (r: Bytes)
    ensures |r| % BLOCK == 0
  {
    PaddingLength(|m|, |m| % BLOCK);
    m + Padding(|m|) + BitLength(|m|)
  }

  function Output(s: State): (r: Bytes)
    ensures |r| == 16
  {
    Le32(s.a) + Le32(s.b) + Le32(s.c) + Le32(s.d)
  }

  function Digest(f: Compression, m: Bytes): (r: Bytes)
    ensures |r| == 16
  {
    Output(Absorb(f, INITIAL, Padded(m)))
  }

  lemma {:induction false} AbsorbConcat(f: Compression, s: State, a: Bytes, b: Bytes)
    requires |a| % BLOCK == 0 && |b| % BLOCK == 0
    ensures (|a| + |b|) % BLOCK == 0 && Absorb(f, s, a + b) == Absorb(f, Absorb(f, s, a), b)
    decreases |a|
  {
    if a == [] {
      assert a + b == b;
    } else {
      assert (a + b)[..BLOCK] == a[..BLOCK] && (a + b)[BLOCK..] == a[BLOCK..] + b;
      AbsorbConcat(f, f(s, a[..BLOCK]), a[BLOCK..], b);
    }
  }

  lemma {:induction false} AbsorbBlock(f: Compression, s: State, blocks: Bytes, block: Bytes)
    requires |blocks| % BLOCK == 0 && s == Absorb(f, INITIAL, blocks) && |block| == BLOCK
    ensures |blocks + block| % BLOCK == 0 && Absorb(f, INITIAL, blocks + block) == f(s, block)
  {
    AbsorbConcat(f, INITIAL, blocks, block);
    assert block[..BLOCK] == block && block[BLOCK..] == [];
    assert Absorb(f, f(s, block), []) == f(s, block);
  }

  // ---- The length counter ---------------------------------------------------------------------

  /** Two words hold the number of octets modulo 2^64. */
  predicate Counts(total0: Word32, total1: Word32, n: nat) {
    total0 == n % 0x1_0000_0000 && total1 == n / 0x1_0000_0000 % 0x1_0000_0000
  }

  /** What the two words leave of the count is a multiple of 2^64. */
  lemma CountsSplit(total0: Word32, total1: Word32, n: nat) returns (q: nat)
    requires Counts(total0, total1, n)
    ensures n == total0 + 0x1_0000_0000 * (total1 + 0x1_0000_0000 * q)
  {
    q := n / 0x1_0000_0000 / 0x1_0000_0000;
  }

  lemma CountsJoin(total0: Word32, total1: Word32, n: nat, q: nat)
    requires n == total0 + 0x1_0000_0000 * (total1 + 0x1_0000_0000 * q)
    ensures Counts(total0, total1, n)
  {
    DivUnique(n, 0x1_0000_0000, total1 + 0x1_0000_0000 * q, total0);
    DivUnique(total1 + 0x1_0000_0000 * q, 0x1_0000_0000, q, total1);
  }

  /** Adding to the low word and carrying when it got smaller than what was added. */
  lemma CarryCounts(total0: Word32, total1: Word32, n: nat, length: Word32)
    requires Counts(total0, total1, n)
    ensures var t0 := (total0 + length) % 0x1_0000_0000;
            Counts(t0, if t0 < length then (total1 + 1) % 0x1_0000_0000 else total1, n + length)
  {
    var q := CountsSplit(total0, total1, n);
    hide Counts;
    var t := total0 + length;
    if t < 0x1_0000_0000 {
      CountsJoin(t, total1, n + length, q);
    } else if total1 + 1 < 0x1_0000_0000 {
      CountsJoin(t - 0x1_0000_0000, total1 + 1, n + length, q);
    } else {
      CountsJoin(t - 0x1_0000_0000, 0, n + length, q + 1);
    }
  }

  /** Bit by bit or. */
  function Or(a: nat, b: nat): nat
    decreases a + b
  {
    if a == 0 && b == 0 then 0 else 2 * Or(a / 2, b / 2) + (if a % 2 == 1 || b % 2 == 1 then 1 else 0)
  }

  lemma {:induction false} OrZero(b: nat)
    ensures Or(0, b) == b
  {
    if b != 0 { OrZero(b / 2); }
  }

  lemma {:induction false} OrDoubles(a: nat, b: nat)
    requires Or(a / 2, b) == a / 2 + b
    ensures Or(a, 2 * b) == a + 2 * b
  {
  }

  /** The shifted words have no bit in common, so or is addition. */
  lemma {:induction false} OrAdds(a: nat, b: nat, c: nat)
    requires a < 8 && b == 8 * c
    ensures Or(a, b) == a + b
  {
    OrZero(c);
    hide Or;
    assert a / 4 / 2 == 0 && a / 2 / 2 == a / 4;
    OrDoubles(a / 4, c);
    OrDoubles(a / 2, 2 * c);
    OrDoubles(a, 2 * (2 * c));
  }

  /** What is shifted out of a word, and what is left. */
  lemma TimesEight(x: Word32)
    ensures x * 8 == x * 8 % 0x1_0000_0000 + 0x1_0000_0000 * (x / 0x2000_0000)
    ensures x / 0x2000_0000 < 8 && x * 8 % 0x1_0000_0000 == 8 * (x % 0x2000_0000)
  {
    DivUnique(x * 8, 0x1_0000_0000, x / 0x2000_0000, 8 * (x % 0x2000_0000));
  }

  /** The two message length words of md5_finish are the length in bits modulo 2^64. */
  lemma {:induction false} LengthWords(total0: Word32, total1: Word32, n: nat)
    requires Counts(total0, total1, n)
    ensures total0 * 8 % 0x1_0000_0000 == 8 * n % 0x1_0000_0000
    ensures Or(total0 / 0x2000_0000, total1 * 8 % 0x1_0000_0000) == 8 * n / 0x1_0000_0000 % 0x1_0000_0000 < 0x1_0000_0000
  {
    var q := CountsSplit(total0, total1, n);
    hide Counts;
    TimesEight(total0);
    TimesEight(total1);
    var low, carry, r, c := total0 * 8 % 0x1_0000_0000, total0 / 0x2000_0000, total1 * 8 % 0x1_0000_0000, total1 / 0x2000_0000;
    OrAdds(carry, r, total1 % 0x2000_0000);
    CountsJoin(low, carry + r, 8 * n, 8 * q + c);
    CountsAre(low, carry + r, 8 * n);
  }

  lemma CountsAre(total0: Word32, total1: Word32, n: nat)
    requires Counts(total0, total1, n)
    ensures total0 == n % 0x1_0000_0000 && total1 == n / 0x1_0000_0000 % 0x1_0000_0000
  {
  }

  // ---- The context ----------------------------------------------------------------------------

  /** A state that has absorbed all of m except a tail of less than a block. */
  ghost predicate Absorbed(f: Compression, s: State, blocks: Bytes, tail: Bytes, m: Bytes) {
    && |blocks| % BLOCK == 0 && |tail| < BLOCK && m == blocks + tail
    && s == Absorb(f, INITIAL, blocks)
  }

  class Md5Context {
    const process: Compression
    var total0: Word32
    var total1: Word32
    var state: State
    const buffer: array<Byte>

    /** The octets fed so far, and those of them that went through the compression function. */
    ghost var fed: Bytes
    ghost var blocks: Bytes

    ghost predicate Valid()
      reads this, buffer
    {
      && buffer.Length == BLOCK && Counts(total0, total1, |fed|)
      && Absorbed(process, state, blocks, buffer[..|fed| % BLOCK], fed)
    }

    /** md5_starts. */
    constructor (f: Compression)
      ensures Valid() && fresh(buffer) && process == f && fed == []
    {
      process := f;
      total0, total1, state, fed, blocks := 0, 0, INITIAL, [], [];
      buffer := new Byte[BLOCK](_ => 0);
    }

    /** The copy that MD5Summer::get finishes instead of its own context. */
    constructor Copy(other: Md5Context)
      requires other.Valid()
      ensures Valid() && fresh(buffer) && process == other.process && fed == other.fed
    {
      process, total0, total1, state := other.process, other.total0, other.total1, other.state;
      fed, blocks := other.fed, other.blocks;
      var b := other.buffer;
      buffer := new Byte[BLOCK](i requires 0 <= i < b.Length reads b => b[i]);
      new;
      assert buffer[..] == other.buffer[..];
      assert buffer[..|fed| % BLOCK] == other.buffer[..|fed| % BLOCK];
    }

    /** md5_update. */
    method Update(input: Bytes)
      requires Valid() && |input| < 0x1_0000_0000
      modifies this`total0, this`total1, this`state, this`fed, this`blocks, buffer
      ensures Valid() && fed == old(fed) + input
    {
      hide Counts, Absorb;
      if |input| == 0 {
        assert fed == fed + input;
        return;
      }
      var left := total0 % BLOCK;
      ghost var all := fed + input;
      Left(total0, total1, |fed|);
      AddLength(|input|, |fed|);
      var pos := 0;
      if left != 0 && |input| >= BLOCK - left {
        pos := FinishBlock(input, left);
        left := 0;
      }
      assert all == blocks + buffer[..left] + input[pos..];
      pos := WholeBlocks(input, pos, left, all);
      Tail(|blocks|, left, |input| - pos, |all|);
      ghost var tail := buffer[..left] + input[pos..];
      assert all == blocks + tail;
      KeepTail(input, pos, left);
      fed := all;
    }

    method KeepTail(input: Bytes, pos: nat, left: nat)
      requires buffer.Length == BLOCK && pos <= |input| && left + |input| - pos < BLOCK
      modifies buffer
      ensures buffer[..left + |input| - pos] == old(buffer[..left]) + input[pos..]
    {
      if |input| > pos {
        FillBuffer(input[pos..], left);
      } else {
        assert input[pos..] == [];
      }
    }

    method AddLength(length: Word32, ghost n: nat)
      requires Counts(total0, total1, n)
      modifies this`total0, this`total1
      ensures Counts(total0, total1, n + length)
    {
      CarryCounts(total0, total1, n, length);
      total0 := (total0 + length) % 0x1_0000_0000;
      if total0 < length {
        total1 := (total1 + 1) % 0x1_0000_0000;
      }
    }

    /** Completes the block that was left half full. */
    method FinishBlock(input: Bytes, left: nat) returns (pos: nat)
      requires buffer.Length == BLOCK && left < BLOCK && BLOCK - left <= |input|
      requires |blocks| % BLOCK == 0 && state == Absorb(process, INITIAL, blocks)
      modifies this`state, this`blocks, buffer
      ensures pos <= |input| && |blocks| % BLOCK == 0 && state == Absorb(process, INITIAL, blocks)
      ensures blocks + input[pos..] == old(blocks + buffer[..left]) + input
    {
      pos := BLOCK - left;
      ghost var before := buffer[..left];
      FillBuffer(input[..pos], left);
      assert buffer[..] == buffer[..left + pos] == before + input[..pos];
      AbsorbBlock(process, state, blocks, buffer[..]);
      state := process(state, buffer[..]);
      assert input == input[..pos] + input[pos..];
      blocks := blocks + buffer[..];
    }

    /** The loop over the blocks that are processed where they stand. */
    method WholeBlocks(input: Bytes, start: nat, left: nat, ghost all: Bytes) returns (pos: nat)
      requires start <= |input| && left < BLOCK <= buffer.Length && (left == 0 || left + |input| - start < BLOCK)
      requires |blocks| % BLOCK == 0 && state == Absorb(process, INITIAL, blocks)
      requires all == blocks + buffer[..left] + input[start..]
      modifies this`state, this`blocks
      ensures pos <= |input| && left + |input| - pos < BLOCK
      ensures |blocks| % BLOCK == 0 && state == Absorb(process, INITIAL, blocks)
      ensures all == blocks + buffer[..left] + input[pos..]
    {
      hide Absorb;
      pos := start;
      while |input| - pos >= BLOCK
        invariant pos <= |input| && (left == 0 || pos == start)
        invariant |blocks| % BLOCK == 0 && state == Absorb(process, INITIAL, blocks)
        invariant all == blocks + buffer[..left] + input[pos..]
      {
        ghost var block := input[pos..pos + BLOCK];
        AbsorbBlock(process, state, blocks, block);
        state := process(state, input[pos..pos + BLOCK]);
        assert buffer[..left] == [] && input[pos..] == block + input[pos + BLOCK..];
        blocks := blocks + block;
        pos := pos + BLOCK;
      }
    }

    /** The memcpy calls into the block buffer. */
    method FillBuffer(b: Bytes, at: nat)
      requires buffer.Length == BLOCK && at + |b| <= BLOCK
      modifies buffer
      ensures buffer[..at + |b|] == old(buffer[..at]) + b
    {
      forall i | 0 <= i < |b| {
        buffer[at + i] := b[i];
      }
      assert forall i :: at <= i < at + |b| ==> buffer[i] == b[i - at];
    }

    /** md5_finish: the padding, the length in bits, and the state as octets. */
    method Finish() returns (digest: Bytes)
      requires Valid()
      modifies this`total0, this`total1, this`state, this`fed, this`blocks, buffer
      ensures digest == Digest(process, old(fed))
    {
      hide Counts, Absorb;
      ghost var m := fed;
      LengthWords(total0, total1, |m|);
      var high := Or(total0 / 0x2000_0000, total1 * 8 % 0x1_0000_0000);
      var low := total0 * 8 % 0x1_0000_0000;
      var msglen := Le32(low) + Le32(high);
      var last := total0 % BLOCK;
      Left(total0, total1, |m|);
      PaddingLength(|m|, last);
      var padn := if last < 56 then 56 - last else 120 - last;
      Update([0x80] + Zeros(padn - 1));
      Update(msglen);
      assert fed == Padded(m);
      NoTail(process, state, blocks, buffer[..|fed| % BLOCK], fed);
      digest := Output(state);
    }
  }

  lemma Left(total0: Word32, total1: Word32, n: nat)
    requires Counts(total0, total1, n)
    ensures total0 % BLOCK == n % BLOCK
  {
    var q := n / 0x1_0000_0000;
    assert n == n % 0x1_0000_0000 + BLOCK * (0x400_0000 * q);
  }

  lemma Tail(absorbed: nat, left: nat, rest: nat, all: nat)
    requires absorbed % BLOCK == 0 && left + rest < BLOCK && all == absorbed + left + rest
    ensures all % BLOCK == left + rest
  {
    DivUnique(all, BLOCK, absorbed / BLOCK, left + rest);
  }

  lemma {:induction false} NoTail(f: Compression, s: State, blocks: Bytes, tail: Bytes, m: Bytes)
    requires Absorbed(f, s, blocks, tail, m) && |m| % BLOCK == 0
    ensures s == Absorb(f, INITIAL, m)
  {
    DivUnique(|m|, BLOCK, |blocks| / BLOCK, |tail|);
    assert m == blocks;
  }

  // ---- The summer -----------------------------------------------------------------------------

  class MD5Summer {
    const context: Md5Context

    ghost predicate Valid()
      reads this, context, context.buffer
    {
      context.Valid()
    }

    /** What has been summed up so far. */
    ghost function Fed(): Bytes
      reads this, context
    {
      context.fed
    }

    constructor (f: Compression)
      ensures Valid() && fresh(context) && fresh(context.buffer) && context.process == f && Fed() == []
    {
      context := new Md5Context(f);
    }

    /** Takes the length as a 32-bit word, so of an input that long only the remainder is summed. */
    method Feed(input: Bytes)
      requires Valid()
      modifies context, context.buffer
      ensures Valid() && Fed() == old(Fed()) + input[..|input| % 0x1_0000_0000]
      ensures |input| < 0x1_0000_0000 ==> Fed() == old(Fed()) + input
    {
      context.Update(input[..|input| % 0x1_0000_0000]);
    }

    /** Changes nothing: no modifies clause, so feeding goes on from where it was. */
    method Get() returns (digest: Bytes)
      requires Valid()
      ensures digest == Digest(context.process, Fed())
    {
      var copy := new Md5Context.Copy(context);
      digest := copy.Finish();
    }
  }

  /** Running checksums: feed a chunk, get, feed the next, and so on. */
  method RunningChecksums(f: Compression, chunks: seq<Bytes>) returns (digests: seq<Bytes>)
    requires forall c :: c in chunks ==> |c| < 0x1_0000_0000
    ensures |digests| == |chunks|
    ensures forall i :: 0 <= i < |chunks| ==> digests[i] == Digest(f, Joined(chunks[..i + 1]))
  {
    var summer := new MD5Summer(f);
    digests := [];
    for i := 0 to |chunks|
      invariant fresh(summer) && fresh(summer.context) && fresh(summer.context.buffer)
      invariant summer.Valid() && summer.context.process == f && summer.Fed() == Joined(chunks[..i])
      invariant |digests| == i
      invariant forall k :: 0 <= k < i ==> digests[k] == Digest(f, Joined(chunks[..k + 1]))
    {
      summer.Feed(chunks[i]);
      assert chunks[..i + 1][..i] == chunks[..i];
      var digest := summer.Get();
      digests := digests + [digest];
    }
  }

  function Joined(chunks: seq<Bytes>): Bytes {
    if chunks == [] then [] else Joined(chunks[..|chunks| - 1]) + chunks[|chunks| - 1]
  }
}
