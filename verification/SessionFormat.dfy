/** What splitpipe writes and joinpipe reads: stretches, volumes and sessions of volumes. */
module SessionFormat {
  import opened Octets
  import opened Md5Stream

  // The stretch types.
  const SESSION_NAME: Byte := 0
  const SESSION_UUID: Byte := 1
  const VOLUME_NUMBER: Byte := 2
  const VOLUME_EOF: Byte := 3
  const DATA: Byte := 4
  const MD5_CHECKSUM: Byte := 5
  const SESSION_EOF: Byte := 7
  const VOLUME_DATE: Byte := 8

  function StretchHeader(size: int, kind: Byte): (r: Bytes)
    ensures |r| == 3
  {
    Be16(size) + [kind]
  }

  /** appendStretch. A content of 64K and more is announced modulo 64K. */
  function Stretch(kind: Byte, content: Bytes): (r: Bytes)
    ensures |r| == 3 + |content|
  {
    StretchHeader(|content|, kind) + content
  }

  datatype Session = Session(uuid: Bytes, name: Bytes)

  /** Every stretch of the session fits the 16-bit size field. */
  predicate Encodable(s: Session) {
    |s.uuid| == 16 && |s.name| < 0x1_0000
  }

  /** One volume: when it was started, and the contents of its Data stretches. */
  datatype Volume = Volume(date: nat, pieces: seq<Bytes>)

  function NameStretch(s: Session): Bytes {
    if s.name == [] then [] else Stretch(SESSION_NAME, s.name)
  }

  /** outputPerVolumeStretches. */
  function Header(s: Session, k: nat, date: nat): (r: Bytes)
    ensures |r| == HeaderLength(s)
  {
    Stretch(SESSION_UUID, s.uuid) + Stretch(VOLUME_DATE, Be32(date)) + NameStretch(s) + Stretch(VOLUME_NUMBER, Be16(k))
  }

  function HeaderLength(s: Session): nat {
    15 + |s.uuid| + |NameStretch(s)|
  }

  function DataStretches(pieces: seq<Bytes>): Bytes {
    if pieces == [] then [] else DataStretches(pieces[..|pieces| - 1]) + Stretch(DATA, pieces[|pieces| - 1])
  }

  /** The running checksum over everything sent so far, and the end of file stretch. */
  function Trailer(f: Compression, sent: Bytes, kind: Byte): (r: Bytes)
    ensures |r| == 22
  {
    Stretch(MD5_CHECKSUM, Digest(f, sent)) + Stretch(kind, [])
  }

  function VolumeBytes(f: Compression, s: Session, k: nat, v: Volume, before: Bytes, kind: Byte): Bytes {
    Header(s, k, v.date) + DataStretches(v.pieces) + Trailer(f, before + Joined(v.pieces), kind)
  }

  /** Everything a session carries. */
  function Stream(vols: seq<Volume>): Bytes {
    if vols == [] then [] else Stream(vols[..|vols| - 1]) + Joined(vols[|vols| - 1].pieces)
  }

  /** These are the octets of the volume at position k of the session. */
  predicate VolumeIs(f: Compression, s: Session, vols: seq<Volume>, k: nat, kind: Byte, bytes: Bytes) {
    k < |vols| && bytes == VolumeBytes(f, s, k, vols[k], Stream(vols[..k]), kind)
  }

  lemma VolumeIsSnoc(f: Compression, s: Session, vols: seq<Volume>, v: Volume, k: nat, kind: Byte, bytes: Bytes)
    requires VolumeIs(f, s, vols, k, kind, bytes)
    ensures VolumeIs(f, s, vols + [v], k, kind, bytes)
  {
    hide VolumeBytes, Stream;
    assert (vols + [v])[..k] == vols[..k];
  }

  /** Only the last volume ends the session. */
  function KindAt(vols: seq<Volume>, k: nat): Byte {
    if k == |vols| - 1 then SESSION_EOF else VOLUME_EOF
  }

  /** A piece is announced by a 16-bit size. */
  predicate SmallPieces(pieces: seq<Bytes>) {
    forall piece :: piece in pieces ==> |piece| <= 0xffff
  }

  predicate SmallVolumes(vols: seq<Volume>) {
    forall v :: v in vols ==> SmallPieces(v.pieces)
  }

  /** The volumes of one session in order. */
  ghost predicate IsSession(f: Compression, s: Session, vols: seq<Volume>, bytes: seq<Bytes>) {
    && |bytes| == |vols| && SmallVolumes(vols)
    && forall k :: 0 <= k < |vols| ==> VolumeIs(f, s, vols, k, KindAt(vols, k), bytes[k])
  }

  predicate NoEmptyPiece(pieces: seq<Bytes>) {
    [] !in pieces
  }

  predicate NoEmptyStretch(vols: seq<Volume>) {
    forall v :: v in vols ==> NoEmptyPiece(v.pieces)
  }

  lemma {:induction false} JoinedSnoc(pieces: seq<Bytes>, piece: Bytes)
    ensures Joined(pieces + [piece]) == Joined(pieces) + piece
    ensures DataStretches(pieces + [piece]) == DataStretches(pieces) + Stretch(DATA, piece)
  {
    assert (pieces + [piece])[..|pieces|] == pieces;
  }

  lemma SmallSnoc(pieces: seq<Bytes>, piece: Bytes)
    requires SmallPieces(pieces) && |piece| <= 0xffff
    ensures SmallPieces(pieces + [piece])
  {
  }

  lemma {:induction false} StreamSnoc(vols: seq<Volume>, v: Volume)
    ensures Stream(vols + [v]) == Stream(vols) + Joined(v.pieces)
  {
    assert (vols + [v])[..|vols|] == vols;
  }

  lemma {:induction false} JoinedCons(pieces: seq<Bytes>)
    requires pieces != []
    ensures Joined(pieces) == pieces[0] + Joined(pieces[1..])
  {
    var n := |pieces| - 1;
    if n > 0 {
      var front, back := pieces[..n], pieces[1..];
      JoinedCons(front);
      assert front[1..] == back[..n - 1] && back[n - 1] == pieces[n];
      assert Joined(back) == Joined(back[..n - 1]) + pieces[n];
    }
  }

  lemma {:induction false} DataCons(pieces: seq<Bytes>)
    requires pieces != []
    ensures DataStretches(pieces) == Stretch(DATA, pieces[0]) + DataStretches(pieces[1..])
  {
    hide Stretch;
    var n := |pieces| - 1;
    if n > 0 {
      var front, back := pieces[..n], pieces[1..];
      DataCons(front);
      assert front[1..] == back[..n - 1] && back[n - 1] == pieces[n];
      assert DataStretches(back) == DataStretches(back[..n - 1]) + Stretch(DATA, pieces[n]);
    }
  }

  lemma {:induction false} StreamPrefix(vols: seq<Volume>, k: nat)
    requires k <= |vols|
    ensures Stream(vols[..k]) <= Stream(vols)
  {
    if k < |vols| {
      StreamPrefix(vols[..|vols| - 1], k);
      assert vols[..|vols| - 1][..k] == vols[..k];
    } else {
      assert vols[..k] == vols;
    }
  }
}
