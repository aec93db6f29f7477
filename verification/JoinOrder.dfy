/** joinpipe against what splitpipe wrote: volumes in order, and volumes in any order. */
module JoinOrder {
  import opened Octets
  import opened Md5Stream
  import opened SessionFormat
  import opened JoinPipe

  // ---- Volumes in order -----------------------------------------------------------------------

  /** About to read volume m, everything before it being out. */
  ghost predicate AtVolume(s: Session, vols: seq<Volume>, bytes: seq<Bytes>, m: nat, st: Join) {
    && m < |vols| == |bytes| && st.status == Reading && st.input == bytes[m] && st.next == bytes[m + 1..]
    && (st.uuid == [] || st.uuid == s.uuid) && st.numVolumes == m && st.out == Stream(vols[..m])
  }

  lemma NextVolume(vols: seq<Volume>, m: nat)
    requires m < |vols|
    ensures Stream(vols[..m + 1]) == Stream(vols[..m]) + Joined(vols[m].pieces)
    ensures NoEmptyStretch(vols[m..]) <==> NoEmptyPiece(vols[m].pieces) && NoEmptyStretch(vols[m + 1..])
  {
    hide NoEmptyPiece;
    assert vols[..m + 1] == vols[..m] + [vols[m]];
    StreamSnoc(vols[..m], vols[m]);
    assert vols[m..] == [vols[m]] + vols[m + 1..];
  }

  lemma TheVolume(f: Compression, s: Session, vols: seq<Volume>, bytes: seq<Bytes>, m: nat)
    requires IsSession(f, s, vols, bytes) && m < |vols|
    ensures bytes[m] == VolumeBytes(f, s, m, vols[m], Stream(vols[..m]), KindAt(vols, m)) + []
    ensures SmallPieces(vols[m].pieces)
  {
    assert VolumeIs(f, s, vols, m, KindAt(vols, m), bytes[m]);
  }

  lemma {:induction false} JoinsFrom(f: Compression, s: Session, vols: seq<Volume>, bytes: seq<Bytes>, m: nat, st: Join)
    requires IsSession(f, s, vols, bytes) && Encodable(s) && AtVolume(s, vols, bytes, m, st)
    ensures Complete(f, st).status == Done <==> NoEmptyStretch(vols[m..]) && |vols| <= 0x1_0000
    ensures Complete(f, st).status == Done ==> Complete(f, st).out == Stream(vols)
    decreases |vols| - m
  {
    hide IsSession, Complete, VolumeBytes, NoEmptyStretch, NoEmptyPiece, SmallPieces, Stream, Joined;
    TheVolume(f, s, vols, bytes, m);
    NextVolume(vols, m);
    var st' := ReadsVolume(f, st, s, m, vols[m], Stream(vols[..m]), KindAt(vols, m), []);
    if m % 0x1_0000 != m {
      NeverMatches(f, s, vols, bytes, m, st);
    } else if !NoEmptyPiece(vols[m].pieces) {
      Ended(f, st');
    } else if m == |vols| - 1 {
      Ended(f, st');
      assert vols[..m + 1] == vols && vols[m + 1..] == [];
      NoneEmptyInNothing();
    } else {
      JoinsFrom(f, s, vols, bytes, m + 1, st');
    }
  }

  lemma NoneEmptyInNothing()
    ensures NoEmptyStretch([])
  {
  }

  /** From the 65537th volume on the number on the volume is never the one expected. */
  lemma {:induction false} NeverMatches(f: Compression, s: Session, vols: seq<Volume>, bytes: seq<Bytes>, m: nat, st: Join)
    requires IsSession(f, s, vols, bytes) && Encodable(s) && m < |vols| == |bytes| && st.numVolumes >= 0x1_0000
    requires st.status == Reading && st.input == bytes[m] && st.next == bytes[m + 1..]
    requires st.uuid == [] || st.uuid == s.uuid
    ensures Complete(f, st).status == NoMoreVolumes
    decreases |vols| - m
  {
    hide IsSession, Complete, VolumeBytes, NoEmptyPiece, SmallPieces, Stream, Joined;
    TheVolume(f, s, vols, bytes, m);
    var st' := ReadsVolume(f, st, s, m, vols[m], Stream(vols[..m]), KindAt(vols, m), []);
    if m == |vols| - 1 {
      Ended(f, st');
    } else {
      NeverMatches(f, s, vols, bytes, m + 1, st');
    }
  }

  /** Joining the volumes of a session in order succeeds, checksums and all, exactly when there is no empty Data
      stretch and there are at most 65536 volumes; and then the output is the stream. */
  lemma {:induction false} JoinInOrder(f: Compression, s: Session, vols: seq<Volume>, bytes: seq<Bytes>, scratch: Scratch)
    requires IsSession(f, s, vols, bytes) && Encodable(s) && vols != []
    ensures var end := Complete(f, Start(bytes, scratch));
            && (end.status == Done <==> NoEmptyStretch(vols) && |vols| <= 0x1_0000)
            && (end.status == Done ==> end.out == Stream(vols))
  {
    hide Complete, VolumeIs, NoEmptyStretch;
    assert vols[0..] == vols && vols[..0] == [];
    JoinsFrom(f, s, vols, bytes, 0, Start(bytes, scratch));
  }

  // ---- Volumes in any order -------------------------------------------------------------------

  datatype Recording = Recording(session: Session, vols: seq<Volume>)

  /** A volume that is inserted: which one of which recording, its octets, and what follows them. */
  datatype Insertion = Insertion(which: nat, k: nat, image: Bytes, garbage: Bytes)

  ghost predicate Joinable(r: Recording) {
    Encodable(r.session) && SmallVolumes(r.vols) && NoEmptyStretch(r.vols) && |r.vols| <= 0x1_0000
  }

  /** Recordings that can be told apart. */
  ghost predicate Shelf(all: seq<Recording>) {
    && (forall i :: 0 <= i < |all| ==> Joinable(all[i]))
    && forall i, j :: 0 <= i < |all| && 0 <= j < |all| && all[i].session.uuid == all[j].session.uuid ==> i == j
  }

  ghost predicate Inserted(f: Compression, all: seq<Recording>, ins: Insertion) {
    && ins.which < |all|
    && VolumeIs(f, all[ins.which].session, all[ins.which].vols, ins.k, KindAt(all[ins.which].vols, ins.k), ins.image)
  }

  ghost predicate AllInserted(f: Compression, all: seq<Recording>, ins: seq<Insertion>) {
    forall j :: 0 <= j < |ins| ==> Inserted(f, all, ins[j])
  }

  function Volumes(ins: seq<Insertion>): (r: seq<Bytes>)
    ensures |r| == |ins|
  {
    if ins == [] then [] else [ins[0].image + ins[0].garbage] + Volumes(ins[1..])
  }

  /** About to read an inserted volume, some volumes of the first session being out. */
  ghost predicate Between(r: Recording, ins: seq<Insertion>, st: Join) {
    && ins != [] && st.status == Reading
    && st.input == ins[0].image + ins[0].garbage && st.next == Volumes(ins[1..])
    && st.numVolumes < |r.vols| && st.out == Stream(r.vols[..st.numVolumes])
  }

  lemma {:induction false} JoinsAny(f: Compression, all: seq<Recording>, first: nat, ins: seq<Insertion>, st: Join)
    requires Shelf(all) && AllInserted(f, all, ins) && first < |all| && Between(all[first], ins, st)
    requires st.uuid == all[first].session.uuid || (st.uuid == [] && ins[0].which == first)
    ensures var end := Complete(f, st);
            && end.out <= Stream(all[first].vols) && end.status != Failed
            && (end.status == Done ==> end.out == Stream(all[first].vols))
    decreases |ins|
  {
    hide Complete, VolumeBytes, NoEmptyPiece, SmallPieces, Stream, Joined, Volumes;
    var r := all[ins[0].which];
    var k, m := ins[0].k, st.numVolumes;
    assert Inserted(f, all, ins[0]) && Joinable(r) && Joinable(all[first]);
    assert ins[0].which != first ==> r.session.uuid != all[first].session.uuid;
    StreamPrefix(all[first].vols, m);
    NextVolume(all[first].vols, m);
    var st' := ReadsVolume(f, st, r.session, k, r.vols[k], Stream(r.vols[..k]), KindAt(r.vols, k), ins[0].garbage);
    if st'.status != Reading {
      Ended(f, st');
      StreamPrefix(all[first].vols, m + 1);
      assert all[first].vols[..|all[first].vols|] == all[first].vols;
    } else {
      VolumesNext(ins[1..], st.next);
      JoinsAny(f, all, first, ins[1..], st');
    }
  }

  lemma {:induction false} VolumesNext(ins: seq<Insertion>, next: seq<Bytes>)
    requires next == Volumes(ins) && next != []
    ensures next[0] == ins[0].image + ins[0].garbage && next[1..] == Volumes(ins[1..])
  {
  }

  /** Whatever complete volumes are inserted in whatever order, what is out at any time is the beginning of the
      stream of the session whose volume came first; the joining never fails; and it ends only with the
      whole stream out. */
  lemma {:induction false} JoinAnyOrder(f: Compression, all: seq<Recording>, ins: seq<Insertion>, scratch: Scratch, n: nat)
    requires Shelf(all) && AllInserted(f, all, ins) && ins != []
    ensures var st, stream := Steps(f, Start(Volumes(ins), scratch), n), Stream(all[ins[0].which].vols);
            st.out <= stream && st.status != Failed && (st.status == Done ==> st.out == stream)
  {
    hide Complete, VolumeBytes;
    assert Inserted(f, all, ins[0]);
    var st := Start(Volumes(ins), scratch);
    JoinsAny(f, all, ins[0].which, ins, st);
    StepsReach(f, st, n);
    if Steps(f, st, n).status != Reading {
      Ended(f, Steps(f, st, n));
    }
  }

  /** The number on a volume is taken modulo 65536: inserted first, the 65537th volume of a longer session is
      taken for its first one and its data goes out, whether the stream begins with it or not. */
  lemma LongSessionTaken(f: Compression, r: Recording, image: Bytes, scratch: Scratch)
    requires Encodable(r.session) && |r.vols| > 0x1_0000
    requires SmallPieces(r.vols[0x1_0000].pieces) && NoEmptyPiece(r.vols[0x1_0000].pieces)
    requires VolumeIs(f, r.session, r.vols, 0x1_0000, KindAt(r.vols, 0x1_0000), image)
    ensures var data, out := Joined(r.vols[0x1_0000].pieces), Complete(f, Start([image], scratch)).out;
            data <= out && (!(data <= Stream(r.vols)) ==> !(out <= Stream(r.vols)))
  {
    hide Complete, Header, Trailer, DataStretches, Joined, NoEmptyPiece, SmallPieces, Stream;
    var k, v := 0x1_0000, r.vols[0x1_0000];
    var rest := Trailer(f, Stream(r.vols[..k]) + Joined(v.pieces), KindAt(r.vols, k));
    assert image == Header(r.session, k, v.date) + (DataStretches(v.pieces) + rest);
    var st := ReadsHeader(f, Start([image], scratch), r.session, k, v.date, DataStretches(v.pieces) + rest);
    var b := ReadsPieces(f, st, v.pieces, rest);
    CompleteGrows(f, st.(out := st.out + Joined(v.pieces), input := rest, scratch := b));
    assert st.out + Joined(v.pieces) == Joined(v.pieces);
  }

  /** A zero octet on each volume but the 65537th, which has a one. */
  function LongVolumes(): (vols: seq<Volume>)
    ensures |vols| == 0x1_0001 && forall k :: 0 <= k < |vols| ==> vols[k] == Volume(0, [[if k == 0x1_0000 then 1 else 0]])
  {
    seq(0x1_0001, k => Volume(0, [[if k == 0x1_0000 then 1 else 0]]))
  }

  lemma {:induction false} JoinedOne(piece: Bytes)
    ensures Joined([piece]) == piece
  {
    assert [piece][..0] == [] && Joined([]) == [];
  }

  lemma {:induction false} LongStream()
    ensures var s := Stream(LongVolumes()); s != [] && s[0] == 0
  {
    var vols := LongVolumes();
    StreamPrefix(vols, 1);
    assert vols[..1] == [vols[0]] && [vols[0]][..0] == [];
    JoinedOne([0]);
    assert Stream([]) == [];
  }

  /** The bound of 65536 volumes is needed for joining in any order: of a recording that has one volume more,
      and is joinable otherwise, the last volume inserted first gives what is no beginning of its stream. */
  lemma {:induction false} BoundIsNeeded(f: Compression, s: Session, scratch: Scratch)
    requires Encodable(s)
    ensures var r, k := Recording(s, LongVolumes()), 0x1_0000;
            var ins := Insertion(0, k, VolumeBytes(f, s, k, r.vols[k], Stream(r.vols[..k]), KindAt(r.vols, k)), []);
            && SmallVolumes(r.vols) && NoEmptyStretch(r.vols) && |r.vols| == 0x1_0001 && AllInserted(f, [r], [ins])
            && !(Complete(f, Start(Volumes([ins]), scratch)).out <= Stream(r.vols))
  {
    hide Complete, VolumeBytes, Stream;
    var r, k := Recording(s, LongVolumes()), 0x1_0000;
    var image := VolumeBytes(f, s, k, r.vols[k], Stream(r.vols[..k]), KindAt(r.vols, k));
    var ins := Insertion(0, k, image, []);
    assert Inserted(f, [r], ins);
    assert [ins][1..] == [] && Volumes([ins]) == [image + []] && image + [] == image;
    JoinedOne([1]);
    LongStream();
    LongSessionTaken(f, r, image, scratch);
  }
}
