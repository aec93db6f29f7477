/** joinpipe: reads stretches from one inserted volume after another and puts the stream back together. */
module JoinPipe {
  import opened Octets
  import opened Md5Stream
  import opened SessionFormat

  datatype Status = Reading | Done | Failed | NoMoreVolumes

  /** The 64K read buffer, in which a short stretch leaves what was read before behind it. */
  type Scratch = b: Bytes | |b| == 0x1_0000 witness Zeros(0x1_0000)

  /** out is what went to standard output; input is what is left of the open volume; next are the volumes
      inserted after it. */
  datatype Join = Join(
    uuid: Bytes, numVolumes: nat, out: Bytes, scratch: Scratch, input: Bytes, next: seq<Bytes>, status: Status)

  function Start(volumes: seq<Bytes>, scratch: Scratch): Join
    requires volumes != []
  {
    Join([], 0, [], scratch, volumes[0], volumes[1..], Reading)
  }

  /** Every open takes the next volume. */
  function OpenNext(st: Join): Join {
    if st.next == [] then st.(status := NoMoreVolumes) else st.(input := st.next[0], next := st.next[1..])
  }

  /** What a stretch that was read does. */
  function Take(f: Compression, st: Join, kind: Byte, content: Bytes): Join {
    if kind == SESSION_UUID then
      if st.uuid == [] then st.(uuid := content) else if st.uuid != content then OpenNext(st) else st
    else if kind == VOLUME_NUMBER then
      if FromBe16(st.scratch[..2]) != st.numVolumes then OpenNext(st) else st.(numVolumes := st.numVolumes + 1)
    else if kind == DATA then
      if content == [] then st.(status := Failed) else st.(out := st.out + content)
    else if kind == VOLUME_EOF then OpenNext(st)
    else if kind == SESSION_EOF then st.(status := Done)
    else if kind == MD5_CHECKSUM && Digest(f, st.out) != content then st.(status := Failed)
    else st
  }

  function Filled(scratch: Scratch, content: Bytes): Scratch
    requires |content| < 0x1_0000
  {
    content + scratch[|content|..]
  }

  function ContentSize(input: Bytes): nat
    requires |input| >= 3
  {
    FromBe16(input[..2])
  }

  /** One turn of the loop. */
  function Step(f: Compression, st: Join): Join
    requires st.status == Reading
  {
    if |st.input| < 3 || |st.input| < 3 + ContentSize(st.input) then st.(status := Failed)
    else
      var size := ContentSize(st.input);
      var content := st.input[3..3 + size];
      Take(f, st.(input := st.input[3 + size..], scratch := Filled(st.scratch, content)), st.input[2], content)
  }

  ghost function Steps(f: Compression, st: Join, n: nat): Join
    decreases n
  {
    if n == 0 || st.status != Reading then st else Steps(f, Step(f, st), n - 1)
  }

  /** The loop run until it ends. */
  function Complete(f: Compression, st: Join): Join
    decreases |st.next|, |st.input| + if st.status == Reading then 1 else 0
  {
    if st.status != Reading then st else Complete(f, Step(f, st))
  }

  // ---- Output only grows ----------------------------------------------------------------------

  lemma StepGrows(f: Compression, st: Join)
    requires st.status == Reading
    ensures st.out <= Step(f, st).out
  {
  }

  lemma {:induction false} CompleteGrows(f: Compression, st: Join)
    ensures st.out <= Complete(f, st).out
    decreases |st.next|, |st.input| + if st.status == Reading then 1 else 0
  {
    if st.status == Reading {
      StepGrows(f, st);
      CompleteGrows(f, Step(f, st));
    }
  }

  /** What is out at any time is a prefix of what is out in the end. */
  lemma {:induction false} StepsReach(f: Compression, st: Join, n: nat)
    ensures Complete(f, Steps(f, st, n)) == Complete(f, st)
    ensures Steps(f, st, n).out <= Complete(f, st).out
    decreases n
  {
    if n == 0 || st.status != Reading {
      CompleteGrows(f, st);
    } else {
      StepsReach(f, Step(f, st), n - 1);
    }
  }

  // ---- Reading what splitpipe wrote -----------------------------------------------------------

  /** One stretch is read whole. */
  lemma {:induction false} ReadsStretch(f: Compression, st: Join, kind: Byte, content: Bytes, rest: Bytes)
    requires st.status == Reading && st.input == Stretch(kind, content) + rest && |content| <= 0xffff
    ensures Complete(f, st)
            == Complete(f, Take(f, st.(input := rest, scratch := Filled(st.scratch, content)), kind, content))
  {
    hide Take;
    var input, size := st.input, |content|;
    Be16RoundTrip(size);
    assert input[..2] == Be16(size) && input[2] == kind;
    assert input[3..3 + size] == content && input[3 + size..] == rest;
  }

  lemma ReadsIgnored(f: Compression, st: Join, kind: Byte, content: Bytes, rest: Bytes) returns (b: Scratch)
    requires st.status == Reading && st.input == Stretch(kind, content) + rest && |content| <= 0xffff
    requires kind == VOLUME_DATE || kind == SESSION_NAME
    ensures Complete(f, st) == Complete(f, st.(input := rest, scratch := b))
  {
    b := Filled(st.scratch, content);
    ReadsStretch(f, st, kind, content, rest);
  }

  /** One Data stretch goes out, unless it is empty, and that ends it. */
  lemma {:induction false} ReadsPiece(f: Compression, st: Join, pieces: seq<Bytes>, rest: Bytes) returns (next: Join)
    requires st.status == Reading && st.input == DataStretches(pieces) + rest && SmallPieces(pieces) && pieces != []
    ensures pieces[0] == [] ==> Complete(f, st).status == Failed
    ensures pieces[0] != [] ==>
              next == st.(out := st.out + pieces[0], input := DataStretches(pieces[1..]) + rest, scratch := next.scratch)
              && Complete(f, st) == Complete(f, next)
  {
    hide Complete, Stretch, Filled;
    DataCons(pieces);
    var after, scratch := DataStretches(pieces[1..]) + rest, Filled(st.scratch, pieces[0]);
    assert st.input == Stretch(DATA, pieces[0]) + after;
    ReadsStretch(f, st, DATA, pieces[0], after);
    next := st.(out := st.out + pieces[0], input := after, scratch := scratch);
    if pieces[0] == [] {
      Ended(f, st.(input := after, scratch := scratch, status := Failed));
    }
  }

  lemma PiecesCons(pieces: seq<Bytes>)
    requires pieces != []
    ensures SmallPieces(pieces) ==> SmallPieces(pieces[1..])
    ensures NoEmptyPiece(pieces) <==> pieces[0] != [] && NoEmptyPiece(pieces[1..])
  {
    assert pieces == [pieces[0]] + pieces[1..];
  }

  /** The Data stretches: all of them go out, unless one is empty, and that ends it. */
  lemma {:induction false} ReadsPieces(f: Compression, st: Join, pieces: seq<Bytes>, rest: Bytes) returns (b: Scratch)
    requires st.status == Reading && st.input == DataStretches(pieces) + rest && SmallPieces(pieces)
    ensures NoEmptyPiece(pieces) ==>
              Complete(f, st) == Complete(f, st.(out := st.out + Joined(pieces), input := rest, scratch := b))
    ensures !NoEmptyPiece(pieces) ==> Complete(f, st).status == Failed
    decreases |pieces|
  {
    b := st.scratch;
    if pieces == [] {
      hide Complete;
      assert st.out + Joined(pieces) == st.out && st.input == rest;
    } else {
      hide Complete, DataStretches, Joined, SmallPieces, NoEmptyPiece;
      var next := ReadsPiece(f, st, pieces, rest);
      PiecesCons(pieces);
      if pieces[0] != [] {
        JoinedCons(pieces);
        b := ReadsPieces(f, next, pieces[1..], rest);
        assert st.out + pieces[0] + Joined(pieces[1..]) == st.out + (pieces[0] + Joined(pieces[1..]));
      }
    }
  }

  lemma {:induction false} Ended(f: Compression, st: Join)
    requires st.status != Reading
    ensures Complete(f, st) == st
  {
  }

  /** The per-volume stretches, from their second on, of a volume of the session being joined. */
  lemma ReadsRestOfHeader(f: Compression, st: Join, s: Session, k: nat, date: nat, rest: Bytes) returns (b: Scratch)
    requires st.status == Reading && Encodable(s)
    requires st.input == Stretch(VOLUME_DATE, Be32(date)) + NameStretch(s) + Stretch(VOLUME_NUMBER, Be16(k)) + rest
    ensures var st1 := st.(input := rest, scratch := b);
            Complete(f, st) == Complete(f, if k % 0x1_0000 == st.numVolumes then st1.(numVolumes := st1.numVolumes + 1)
                                           else OpenNext(st1))
  {
    hide Complete, Stretch;
    var number := Stretch(VOLUME_NUMBER, Be16(k)) + rest;
    assert st.input == Stretch(VOLUME_DATE, Be32(date)) + (NameStretch(s) + number);
    b := ReadsIgnored(f, st, VOLUME_DATE, Be32(date), NameStretch(s) + number);
    var st1 := st.(input := NameStretch(s) + number, scratch := b);
    if s.name != [] {
      b := ReadsIgnored(f, st1, SESSION_NAME, s.name, number);
    }
    assert s.name == [] ==> NameStretch(s) + number == number;
    var st2 := st.(input := number, scratch := b);
    assert Complete(f, st) == Complete(f, st2);
    ReadsStretch(f, st2, VOLUME_NUMBER, Be16(k), rest);
    b := Filled(b, Be16(k));
    assert b[..2] == Be16(k);
    Be16RoundTrip(k);
  }

  /** The checksum is right, so the end of file stretch is reached. */
  lemma ReadsTrailer(f: Compression, st: Join, kind: Byte, garbage: Bytes) returns (b: Scratch)
    requires st.status == Reading && st.input == Trailer(f, st.out, kind) + garbage
    requires kind == VOLUME_EOF || kind == SESSION_EOF
    ensures var st1 := st.(input := garbage, scratch := b);
            Complete(f, st) == Complete(f, if kind == VOLUME_EOF then OpenNext(st1) else st1.(status := Done))
  {
    hide Complete, Stretch;
    var sum := Digest(f, st.out);
    var end := Stretch(kind, []) + garbage;
    assert st.input == Stretch(MD5_CHECKSUM, sum) + end;
    ReadsStretch(f, st, MD5_CHECKSUM, sum, end);
    var st1 := st.(input := end, scratch := Filled(st.scratch, sum));
    ReadsStretch(f, st1, kind, [], garbage);
    b := Filled(st1.scratch, []);
  }

  // ---- One volume -----------------------------------------------------------------------------

  /** The next volume was opened, or there is none. */
  predicate Opened(st: Join, st': Join) {
    if st.next == [] then st'.status == NoMoreVolumes
    else st'.status == Reading && st'.input == st.next[0] && st'.next == st.next[1..]
  }

  /** How reading a volume from its beginning ends. */
  predicate VolumeRead(st: Join, st': Join, s: Session, k: nat, v: Volume, kind: Byte) {
    if st.uuid != [] && st.uuid != s.uuid then
      Opened(st, st') && st'.uuid == st.uuid && st'.numVolumes == st.numVolumes && st'.out == st.out
    else if k % 0x1_0000 != st.numVolumes then
      Opened(st, st') && st'.uuid == s.uuid && st'.numVolumes == st.numVolumes && st'.out == st.out
    else if !NoEmptyPiece(v.pieces) then
      st'.status == Failed
    else
      && st'.uuid == s.uuid && st'.numVolumes == st.numVolumes + 1 && st'.out == st.out + Joined(v.pieces)
      && if kind == VOLUME_EOF then Opened(st, st') else st'.status == Done
  }

  /** The per-volume stretches: a volume of another session or with another number than expected is replaced by
      the next one, one that is expected is read on. */
  lemma ReadsHeader(f: Compression, st: Join, s: Session, k: nat, date: nat, body: Bytes) returns (st': Join)
    requires st.status == Reading && st.input == Header(s, k, date) + body && Encodable(s)
    ensures Complete(f, st) == Complete(f, st') && st'.out == st.out
    ensures st.uuid != [] && st.uuid != s.uuid ==>
              Opened(st, st') && st'.uuid == st.uuid && st'.numVolumes == st.numVolumes
    ensures (st.uuid == [] || st.uuid == s.uuid) && k % 0x1_0000 != st.numVolumes ==>
              Opened(st, st') && st'.uuid == s.uuid && st'.numVolumes == st.numVolumes
    ensures (st.uuid == [] || st.uuid == s.uuid) && k % 0x1_0000 == st.numVolumes ==>
              && st'.status == Reading && st'.input == body && st'.next == st.next
              && st'.uuid == s.uuid && st'.numVolumes == st.numVolumes + 1
  {
    hide Complete, Stretch;
    var head := Stretch(VOLUME_DATE, Be32(date)) + NameStretch(s) + Stretch(VOLUME_NUMBER, Be16(k));
    assert st.input == Stretch(SESSION_UUID, s.uuid) + (head + body);
    ReadsStretch(f, st, SESSION_UUID, s.uuid, head + body);
    var st1 := st.(input := head + body, scratch := Filled(st.scratch, s.uuid));
    if st.uuid != [] && st.uuid != s.uuid {
      st' := OpenNext(st1);
      return;
    }
    var st2 := st1.(uuid := s.uuid);
    assert Take(f, st1, SESSION_UUID, s.uuid) == st2;
    var b := ReadsRestOfHeader(f, st2, s, k, date, body);
    var st3 := st2.(input := body, scratch := b);
    st' := if k % 0x1_0000 == st.numVolumes then st3.(numVolumes := st3.numVolumes + 1) else OpenNext(st3);
  }

  /** Volumes of other sessions and volumes out of order give no output, one that is expected gives its data,
      and what follows the end of file stretch is not looked at. */
  lemma ReadsVolume(f: Compression, st: Join, s: Session, k: nat, v: Volume, before: Bytes, kind: Byte, garbage: Bytes)
      returns (st': Join)
    requires st.status == Reading && st.input == VolumeBytes(f, s, k, v, before, kind) + garbage
    requires Encodable(s) && SmallPieces(v.pieces) && (kind == VOLUME_EOF || kind == SESSION_EOF)
    requires k % 0x1_0000 == st.numVolumes && (st.uuid == [] || st.uuid == s.uuid) ==> st.out == before
    ensures Complete(f, st) == Complete(f, st') && VolumeRead(st, st', s, k, v, kind)
  {
    hide Complete, Header, Trailer, DataStretches, Joined, NoEmptyPiece, SmallPieces;
    var body := DataStretches(v.pieces) + Trailer(f, before + Joined(v.pieces), kind) + garbage;
    VolumeParts(f, s, k, v, before, kind, garbage);
    hide VolumeBytes;
    st' := ReadsHeader(f, st, s, k, v.date, body);
    if k % 0x1_0000 == st.numVolumes && (st.uuid == [] || st.uuid == s.uuid) {
      st' := ReadsBody(f, st', v.pieces, kind, garbage);
    }
  }

  lemma VolumeParts(f: Compression, s: Session, k: nat, v: Volume, before: Bytes, kind: Byte, garbage: Bytes)
    ensures VolumeBytes(f, s, k, v, before, kind) + garbage
         == Header(s, k, v.date) + (DataStretches(v.pieces) + Trailer(f, before + Joined(v.pieces), kind) + garbage)
  {
    hide Header, DataStretches, Trailer, Joined;
  }

  lemma ReadsBody(f: Compression, st: Join, pieces: seq<Bytes>, kind: Byte, garbage: Bytes) returns (st': Join)
    requires st.status == Reading && SmallPieces(pieces) && (kind == VOLUME_EOF || kind == SESSION_EOF)
    requires st.input == DataStretches(pieces) + Trailer(f, st.out + Joined(pieces), kind) + garbage
    ensures Complete(f, st) == Complete(f, st')
    ensures !NoEmptyPiece(pieces) ==> st'.status == Failed
    ensures NoEmptyPiece(pieces) ==>
              && st'.uuid == st.uuid && st'.numVolumes == st.numVolumes && st'.out == st.out + Joined(pieces)
              && if kind == VOLUME_EOF then Opened(st, st') else st'.status == Done
  {
    hide Complete, Stretch, Trailer, DataStretches, Joined, NoEmptyPiece, SmallPieces;
    var out := st.out + Joined(pieces);
    var rest := Trailer(f, out, kind) + garbage;
    assert st.input == DataStretches(pieces) + rest;
    var b := ReadsPieces(f, st, pieces, rest);
    if NoEmptyPiece(pieces) {
      var st1 := st.(out := out, input := rest, scratch := b);
      b := ReadsTrailer(f, st1, kind, garbage);
      var st2 := st1.(input := garbage, scratch := b);
      st' := if kind == VOLUME_EOF then OpenNext(st2) else st2.(status := Done);
    } else {
      st' := Complete(f, st);
      Ended(f, st');
    }
  }
}
