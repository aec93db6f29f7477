/** splitpipe's ring buffer: one octet more than its capacity, and both positions may rest at the very end
    of the vector before they wrap. */
module RingBuffers {
  import opened Octets

  // ---- The positions, as expressions over capacity, read and write position --------------------

  function Room(cap: nat, r: nat, w: nat): int {
    if r == w then cap else if r < w then r + cap - w else r - w - 1
  }

  function Available(cap: nat, r: nat, w: nat): int {
    if r == w then 0 else if r < w then w - r else w + (cap + 1) - r
  }

  function ContiguousAvailable(cap: nat, r: nat, w: nat): int {
    if w > r then w - r else cap + 1 - r
  }

  /** The positions an object can be in. The second conjunct rules out the one combination in which the
      two ends of the vector would be taken for a full buffer of one octet too many. */
  predicate Positions(cap: nat, r: nat, w: nat) {
    r <= cap + 1 && w <= cap + 1 && !(r == 0 && w == cap + 1)
  }

  lemma RoomPlusAvailable(cap: nat, r: nat, w: nat)
    requires r <= cap + 1 && w <= cap + 1
    ensures Room(cap, r, w) + Available(cap, r, w) == cap
    ensures 0 <= Available(cap, r, w) <= cap <==> Positions(cap, r, w)
  {
  }

  /** The write position after storing size octets. */
  function StoredAt(cap: nat, w: nat, size: nat): int {
    if size == 0 || w + size <= cap + 1 then w + size else w + size - (cap + 1)
  }

  /** The positions after get, which moves a read position at the end to the front. */
  function ReadAt(cap: nat, r: nat): nat {
    if r == cap + 1 then 0 else r
  }

  /** get keeps the positions right exactly when the buffer is not an empty one resting at the end. */
  lemma GetSafeIff(cap: nat, r: nat, w: nat)
    requires Positions(cap, r, w)
    ensures Positions(cap, ReadAt(cap, r), w) <==> !(Available(cap, r, w) == 0 && r == w == cap + 1)
  {
  }

  /** Exactly the stores that fit lead to right positions with that much more available. */
  lemma StoreSafeIff(cap: nat, r: nat, w: nat, size: nat)
    requires Positions(cap, r, w) && size <= cap + 1
    ensures var w' := StoredAt(cap, w, size);
            size <= Room(cap, r, w) <==>
              0 <= w' && Positions(cap, r, w') && Available(cap, r, w') == Available(cap, r, w) + size
  {
  }

  // ---- The buffer -----------------------------------------------------------------------------

  class RingBuffer {
    const capacity: nat
    const vector: array<Byte>
    var rpos: nat
    var wpos: nat

    ghost predicate Valid()
      reads this, vector
    {
      vector.Length == capacity + 1 && Positions(capacity, rpos, wpos)
    }

    /** The queue of octets stored and not yet read past. */
    ghost function Contents(): (s: Bytes)
      requires Valid()
      reads this, vector
      ensures |s| == Available(capacity, rpos, wpos)
    {
      if rpos <= wpos then vector[rpos..wpos] else vector[rpos..] + vector[..wpos]
    }

    constructor (size: nat)
      ensures Valid() && fresh(vector) && capacity == size && Contents() == []
    {
      capacity := size;
      vector := new Byte[size + 1](_ => 0);
      rpos, wpos := 0, 0;
    }

    function GetRoom(): (n: nat)
      requires Valid()
      reads this, vector
      ensures n == capacity - |Contents()|
    {
      Room(capacity, rpos, wpos)
    }

    function GetAvailable(): (n: nat)
      requires Valid()
      reads this, vector
      ensures n == |Contents()|
    {
      Available(capacity, rpos, wpos)
    }

    /** Appends a block, or refuses it whole when there is no room. */
    method Store(block: Bytes) returns (ok: bool)
      requires Valid()
      modifies this`wpos, vector
      ensures Valid()
      ensures ok <==> |block| <= capacity - |old(Contents())|
      ensures Contents() == if ok then old(Contents()) + block else old(Contents())
    {
      if |block| == 0 {
        return true;
      }
      if |block| > GetRoom() {
        return false;
      }
      ghost var v, w := vector[..], wpos;
      ContentsAreQueue();
      Write(block);
      StoreKeeps(v, vector[..], capacity, rpos, w, wpos, block);
      ContentsAreQueue();
      ok := true;
    }

    lemma ContentsAreQueue()
      requires Valid()
      ensures Contents() == Queue(vector[..], rpos, wpos)
    {
    }

    /** Copies a block behind the write position, going round at the end of the vector. */
    method Write(block: Bytes)
      requires Valid() && 0 < |block| <= Room(capacity, rpos, wpos)
      modifies this`wpos, vector
      ensures var k, w := vector.Length - old(wpos), old(wpos);
              if |block| <= k then wpos == w + |block| && vector[..] == old(vector[..w]) + block + old(vector[w + |block|..])
              else wpos == |block| - k && vector[..] == block[k..] + old(vector[|block| - k..wpos]) + block[..k]
    {
      var len := if |block| <= vector.Length - wpos then |block| else vector.Length - wpos;
      ghost var v, w := vector[..], wpos;
      Copy(block[..len], wpos);
      wpos := wpos + len;
      assert vector[..] == v[..w] + block[..len] + v[w + len..];
      if len == |block| {
        assert block[..len] == block;
        return;
      }
      ghost var u := vector[..];
      var rest := block[len..];
      assert u == v[..w] + block[..len];
      wpos := 0;
      Copy(rest, 0);
      wpos := |block| - len;
      assert u[|rest|..] == v[|rest|..w] + block[..len];
      assert vector[..] == rest + u[|rest|..];
    }

    method Copy(block: Bytes, at: nat)
      requires at + |block| <= vector.Length
      modifies vector
      ensures vector[..] == old(vector[..at]) + block + old(vector[at + |block|..])
    {
      forall i | 0 <= i < |block| {
        vector[at + i] := block[i];
      }
      assert forall i :: at <= i < at + |block| ==> vector[i] == block[i - at];
    }

    /** The octets that can be read without wrapping: where they start and how many they are. */
    method Get() returns (at: nat, len: nat)
      requires Valid() && Contents() != []
      modifies this`rpos
      ensures Valid() && Contents() == old(Contents())
      ensures 0 < len <= |Contents()| && at == rpos && at + len <= vector.Length
      ensures vector[at..at + len] == Contents()[..len]
    {
      if rpos == vector.Length {
        rpos := 0;
      }
      at := rpos;
      len := ContiguousAvailable(capacity, rpos, wpos);
      assert wpos <= rpos ==> vector[at..at + len] == vector[rpos..];
    }

    /** Drops octets from the front. */
    method Advance(bytes: nat)
      requires Valid() && bytes <= |Contents()|
      modifies this`rpos
      ensures Valid() && Contents() == old(Contents())[bytes..]
    {
      rpos := rpos + bytes;
      if rpos > vector.Length {
        rpos := rpos - vector.Length;
      }
    }
  }

  function Queue(v: Bytes, r: nat, w: nat): Bytes
    requires r <= |v| && w <= |v|
  {
    if r <= w then v[r..w] else v[r..] + v[..w]
  }

  lemma QueueAhead(v: Bytes, u: Bytes, r: nat, w: nat, block: Bytes)
    requires |v| == |u| && r <= w && w + |block| <= |v| && u == v[..w] + block + v[w + |block|..]
    ensures Queue(u, r, w + |block|) == Queue(v, r, w) + block
  {
    assert u[r..w + |block|] == v[r..w] + block;
  }

  lemma QueueBehind(v: Bytes, u: Bytes, r: nat, w: nat, block: Bytes)
    requires |v| == |u| && w + |block| < r <= |v| && u == v[..w] + block + v[w + |block|..]
    ensures Queue(u, r, w + |block|) == Queue(v, r, w) + block
  {
    assert u[r..] == v[r..] && u[..w + |block|] == v[..w] + block;
  }

  lemma QueueAround(v: Bytes, u: Bytes, r: nat, w: nat, block: Bytes, k: nat)
    requires |v| == |u| && k == |v| - w < |block| && |block| - k < r <= w <= |v|
    requires u == block[k..] + v[|block| - k..w] + block[..k]
    ensures Queue(u, r, |block| - k) == Queue(v, r, w) + block
  {
    assert u[..|block| - k] == block[k..];
    assert u[r..] == v[r..w] + block[..k];
    assert block[..k] + block[k..] == block;
  }

  /** A block written in one piece or around the end is a block appended to the queue. */
  lemma StoreKeeps(v: Bytes, u: Bytes, cap: nat, r: nat, w: nat, w': nat, block: Bytes)
    requires |v| == |u| == cap + 1 && Positions(cap, r, w) && 0 < |block| <= Room(cap, r, w)
    requires var k := cap + 1 - w;
             if |block| <= k then w' == w + |block| && u == v[..w] + block + v[w + |block|..]
             else w' == |block| - k && u == block[k..] + v[|block| - k..w] + block[..k]
    ensures Positions(cap, r, w') && Queue(u, r, w') == Queue(v, r, w) + block
  {
    hide Queue;
    var k := cap + 1 - w;
    if |block| > k {
      QueueAround(v, u, r, w, block, k);
    } else if r <= w {
      QueueAhead(v, u, r, w, block);
    } else {
      QueueBehind(v, u, r, w, block);
    }
  }
}
