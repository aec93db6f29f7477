/** splitpipe: standard input goes through the ring buffer and is cut into stretches under a volume budget. */
module SplitPipe {
  import opened Octets
  import opened Md5Stream
  import opened SessionFormat
  import opened RingBuffers

  const U64 := 0x1_0000_0000_0000_0000

  /** size is the volume size asked for, in octets. */
  datatype Params = Params(f: Compression, session: Session, size: nat, bufferSize: nat)

  /** What is left of the volume size for everything but the trailer, in 64-bit arithmetic. */
  function Budget(p: Params): nat {
    (p.size - 2048) % U64
  }

  /** The budget of a volume size with room for the 2048 octets and for the per-volume stretches. */
  predicate HeaderFits(p: Params) {
    HeaderLength(p.session) + 2048 <= p.size < U64
  }

  datatype Status = Dead | Working | Dying

  /** closed and open are what the output commands got so far; fed is what the checksum covers. */
  datatype Split = Split(
    queue: Bytes, eof: bool, status: Status, left: nat, amount: nat, number: nat,
    fed: Bytes, closed: seq<Bytes>, open: Bytes, finished: bool)

  const START := Split([], false, Dead, 0, 0, 0, [], [], [], false)

  /** What can happen: input arrives or ends, an output command is spawned or exits, one round of the output
      loop with what can be read contiguously and how much of it the pipe accepts, and the end of the run. */
  datatype Action =
    | Read(chunk: Bytes)
    | InputEof
    | Spawn(date: nat)
    | Output(contiguous: nat, accepted: nat)
    | ChildExit
    | Finish

  function Min(a: nat, b: nat): nat {
    if a < b then a else b
  }

  function LeftInVolume(p: Params, st: Split): nat {
    (Budget(p) - st.amount) % U64
  }

  predicate StartsStretch(p: Params, st: Split) {
    LeftInVolume(p, st) >= 3 && st.left == 0
  }

  function WriteLength(p: Params, st: Split, contiguous: nat): nat {
    if StartsStretch(p, st) then 0 else Min(Min(contiguous, LeftInVolume(p, st)), st.left)
  }

  /** The loop ends as soon as the input has ended and the buffer is empty. */
  predicate Drained(st: Split) {
    st.eof && st.queue == []
  }

  predicate Legal(p: Params, st: Split, a: Action) {
    && !st.finished
    && match a
       case Read(chunk) =>
         !st.eof && 0 < |chunk| <= 100000 && |st.queue| + |chunk| <= p.bufferSize
       case InputEof =>
         !st.eof && |st.queue| < p.bufferSize
       case Spawn(date) =>
         !Drained(st) && st.status == Dead && (st.eof || 2 * |st.queue| > p.bufferSize)
       case Output(contiguous, accepted) =>
         && st.status == Working && 0 < contiguous <= |st.queue|
         && accepted <= WriteLength(p, st, contiguous)
       case ChildExit =>
         !Drained(st) && st.status == Dying
       case Finish =>
         Drained(st)
  }

  function Apply(p: Params, st: Split, a: Action): Split
    requires Legal(p, st, a)
  {
    match a
    case Read(chunk) => st.(queue := st.queue + chunk)
    case InputEof => st.(eof := true)
    case Spawn(date) =>
      st.(status := Working, number := st.number + 1, open := Header(p.session, st.number, date),
          amount := HeaderLength(p.session) % U64)
    case Output(contiguous, accepted) =>
      if StartsStretch(p, st) then StartStretch(p, st, contiguous)
      else if WriteLength(p, st, contiguous) == 0 then CloseVolume(p, st)
      else WriteSome(st, accepted)
    case ChildExit => st.(status := Dead)
    case Finish => FinishSession(p, st)
  }

  function StretchSize(p: Params, st: Split, contiguous: nat): nat
    requires StartsStretch(p, st)
  {
    Min(Min(0xffff, contiguous), LeftInVolume(p, st) - 3)
  }

  function StartStretch(p: Params, st: Split, contiguous: nat): Split
    requires StartsStretch(p, st)
  {
    var size := StretchSize(p, st, contiguous);
    st.(left := size, open := st.open + StretchHeader(size, DATA), amount := (st.amount + 3) % U64)
  }

  function WriteSome(st: Split, n: nat): Split
    requires n <= |st.queue| && n <= st.left
  {
    st.(queue := st.queue[n..], fed := st.fed + st.queue[..n], open := st.open + st.queue[..n],
        amount := (st.amount + n) % U64, left := st.left - n)
  }

  function CloseVolume(p: Params, st: Split): Split {
    st.(closed := st.closed + [st.open + Trailer(p.f, st.fed, VOLUME_EOF)], open := [], status := Dying, amount := 0)
  }

  function FinishSession(p: Params, st: Split): Split {
    if st.status == Working then
      st.(closed := st.closed + [st.open + Trailer(p.f, st.fed, SESSION_EOF)], open := [], finished := true)
    else st.(finished := true)
  }

  ghost predicate LegalRun(p: Params, st: Split, run: seq<Action>)
    decreases |run|
  {
    run == [] || (Legal(p, st, run[0]) && LegalRun(p, Apply(p, st, run[0]), run[1..]))
  }

  ghost function Run(p: Params, st: Split, run: seq<Action>): Split
    requires LegalRun(p, st, run)
    decreases |run|
  {
    if run == [] then st else Run(p, Apply(p, st, run[0]), run[1..])
  }

  /** Everything read from standard input. */
  function InputOf(run: seq<Action>): Bytes {
    if run == [] then [] else (if run[0].Read? then run[0].chunk else []) + InputOf(run[1..])
  }

  /** A stretch is started with exactly three octets left in the volume, so it has room for no data. */
  predicate StartsEmpty(p: Params, st: Split, a: Action) {
    a.Output? && StartsStretch(p, st) && LeftInVolume(p, st) == 3
  }

  ghost predicate NeverStartsEmpty(p: Params, st: Split, run: seq<Action>)
    requires LegalRun(p, st, run)
    decreases |run|
  {
    run == [] || (!StartsEmpty(p, st, run[0]) && NeverStartsEmpty(p, Apply(p, st, run[0]), run[1..]))
  }

  // ---- Stretch accounting ---------------------------------------------------------------------

  /** What holds in every state of every run: a stretch never promises more than is buffered or than the
      volume has room for, so no volume and no session ends inside one; and with nothing buffered either a
      volume is open or nothing was ever read. */
  predicate Accounted(p: Params, st: Split) {
    && st.left <= |st.queue| && st.left <= 0xffff
    && (st.status == Working ==> st.left <= LeftInVolume(p, st))
    && (st.status != Working ==> st.left == 0)
    && (st.status != Working && st.queue == [] ==> st.fed == [] && st.closed == [])
    && (st.status == Working ==> |st.fed| + |st.queue| > 0)
    && (st.finished ==> Drained(st))
  }

  lemma LeftAfter(budget: nat, amount: nat, n: nat)
    requires n <= (budget - amount) % U64
    ensures (budget - (amount + n) % U64) % U64 == (budget - amount) % U64 - n
  {
    var q, r := (amount + n) / U64, (budget - amount) / U64;
    var rest := (budget - amount) % U64 - n;
    DivUnique(budget - (amount + n) % U64, U64, r + q, rest);
  }

  lemma StepAccounts(p: Params, st: Split, a: Action)
    requires Accounted(p, st) && Legal(p, st, a)
    ensures Accounted(p, Apply(p, st, a))
    ensures Apply(p, st, a).finished <==> a.Finish?
  {
    if a.Output? {
      if StartsStretch(p, st) {
        LeftAfter(Budget(p), st.amount, 3);
      } else {
        LeftAfter(Budget(p), st.amount, a.accepted);
      }
    }
  }

  /** A volume that is closed has no stretch open. */
  lemma NoVolumeEndsInsideAStretch(p: Params, st: Split, a: Action)
    requires Accounted(p, st) && Legal(p, st, a)
    requires |Apply(p, st, a).closed| > |st.closed|
    ensures st.left == 0
  {
  }

  /** What is on the open volume is what was counted, and it is within the budget. */
  predicate Bounded(p: Params, st: Split) {
    && (st.status == Working && !st.finished ==> |st.open| == st.amount <= Budget(p))
    && SizesWithin(st.closed, Budget(p) + 22)
  }

  predicate SizesWithin(volumes: seq<Bytes>, bound: nat) {
    forall k :: 0 <= k < |volumes| ==> |volumes[k]| <= bound
  }

  lemma WithinBudget(budget: nat, amount: nat, n: nat)
    requires amount + n <= budget < U64
    ensures (budget - amount) % U64 == budget - amount && (amount + n) % U64 == amount + n
  {
  }

  lemma OutputBounds(p: Params, st: Split, contiguous: nat, accepted: nat)
    requires Accounted(p, st) && Bounded(p, st) && Legal(p, st, Output(contiguous, accepted))
    ensures Bounded(p, Apply(p, st, Output(contiguous, accepted)))
  {
    hide SizesWithin;
    WithinBudget(Budget(p), st.amount, 0);
    if StartsStretch(p, st) {
      WithinBudget(Budget(p), st.amount, 3);
    } else if WriteLength(p, st, contiguous) == 0 {
      SizesSnoc(st.closed, st.open + Trailer(p.f, st.fed, VOLUME_EOF), Budget(p) + 22);
    } else {
      WithinBudget(Budget(p), st.amount, accepted);
    }
  }

  lemma SizesSnoc(volumes: seq<Bytes>, last: Bytes, bound: nat)
    requires SizesWithin(volumes, bound) && |last| <= bound
    ensures SizesWithin(volumes + [last], bound)
  {
  }

  lemma StepBounds(p: Params, st: Split, a: Action)
    requires HeaderFits(p) && Accounted(p, st) && Bounded(p, st) && Legal(p, st, a)
    ensures Bounded(p, Apply(p, st, a))
  {
    hide SizesWithin, Header, HeaderLength, Trailer, LeftInVolume;
    if a.Output? {
      OutputBounds(p, st, a.contiguous, a.accepted);
    } else if a.Spawn? {
      WithinBudget(Budget(p), HeaderLength(p.session), 0);
    } else if a.Finish? && st.status == Working {
      SizesSnoc(st.closed, st.open + Trailer(p.f, st.fed, SESSION_EOF), Budget(p) + 22);
    }
  }

  lemma {:induction false} RunAccounts(p: Params, st: Split, run: seq<Action>)
    requires Accounted(p, st) && LegalRun(p, st, run)
    ensures Accounted(p, Run(p, st, run))
    ensures HeaderFits(p) && Bounded(p, st) ==> Bounded(p, Run(p, st, run))
    decreases |run|
  {
    if run != [] {
      StepAccounts(p, st, run[0]);
      if HeaderFits(p) && Bounded(p, st) {
        StepBounds(p, st, run[0]);
      }
      RunAccounts(p, Apply(p, st, run[0]), run[1..]);
    }
  }

  /** In every reachable state no volume, its 22 octets of trailer included, is larger than was asked for. */
  lemma {:induction false} VolumeBound(p: Params, run: seq<Action>)
    requires HeaderFits(p) && LegalRun(p, START, run)
    ensures var st := Run(p, START, run);
            && SizesWithin(st.closed, p.size - 2026)
            && (st.status == Working && !st.finished ==> |st.open| + 22 <= p.size - 2026)
            && (st.status == Working ==> st.left <= LeftInVolume(p, st)) && st.left <= |st.queue|
  {
    RunAccounts(p, START, run);
  }

  // ---- Nothing is lost, added or reordered ----------------------------------------------------

  lemma StepConserves(p: Params, st: Split, a: Action)
    requires Legal(p, st, a)
    ensures Apply(p, st, a).fed + Apply(p, st, a).queue
            == st.fed + st.queue + (if a.Read? then a.chunk else [])
  {
    if a.Output? && !StartsStretch(p, st) && WriteLength(p, st, a.contiguous) != 0 {
      assert st.queue == st.queue[..a.accepted] + st.queue[a.accepted..];
    }
  }

  lemma {:induction false} RunConserves(p: Params, st: Split, run: seq<Action>)
    requires LegalRun(p, st, run)
    ensures Run(p, st, run).fed + Run(p, st, run).queue == st.fed + st.queue + InputOf(run)
    decreases |run|
  {
    if run != [] {
      StepConserves(p, st, run[0]);
      RunConserves(p, Apply(p, st, run[0]), run[1..]);
    }
  }

  // ---- What was sent is a session -------------------------------------------------------------

  /** How the octets sent so far divide: the closed volumes, the date and the whole Data stretches of the open
      one, and what was sent of the stretch that is open. */
  datatype Progress = Progress(vols: seq<Volume>, date: nat, pieces: seq<Bytes>, part: Bytes)

  predicate NoneEmpty(h: Progress) {
    NoEmptyStretch(h.vols) && NoEmptyPiece(h.pieces)
  }

  function OpenStretch(left: nat, part: Bytes): Bytes {
    if left == 0 then [] else StretchHeader(|part| + left, DATA) + part
  }

  ghost predicate ClosedAre(p: Params, closed: seq<Bytes>, vols: seq<Volume>) {
    && |closed| == |vols| && SmallVolumes(vols)
    && forall k :: 0 <= k < |vols| ==> VolumeIs(p.f, p.session, vols, k, VOLUME_EOF, closed[k])
  }

  predicate OpenIs(s: Session, number: nat, left: nat, open: Bytes, h: Progress) {
    && number == |h.vols| + 1 && (left == 0 ==> h.part == [])
    && SmallPieces(h.pieces) && |h.part| + left <= 0xffff
    && open == Header(s, |h.vols|, h.date) + DataStretches(h.pieces) + OpenStretch(left, h.part)
  }

  ghost predicate Sent(p: Params, st: Split, h: Progress) {
    && st.fed == Stream(h.vols) + Joined(h.pieces) + h.part
    && (!st.finished ==> ClosedAre(p, st.closed, h.vols))
    && (!st.finished && st.status == Working ==> OpenIs(p.session, st.number, st.left, st.open, h))
    && (st.status != Working ==> st.number == |h.vols| && h.pieces == [] && h.part == [])
    && (st.finished ==> h.part == [] && if st.status == Working then IsSession(p.f, p.session, Sealed(h), st.closed)
                                        else h.vols == [] && st.closed == [])
  }

  function Sealed(h: Progress): seq<Volume> {
    h.vols + [Volume(h.date, h.pieces)]
  }

  lemma SpawnSends(p: Params, st: Split, date: nat, h: Progress)
    requires Sent(p, st, h) && Legal(p, st, Spawn(date)) && Accounted(p, st)
    ensures Sent(p, Apply(p, st, Spawn(date)), h.(date := date))
  {
    hide ClosedAre;
    assert DataStretches(h.pieces) == [];
  }

  lemma StretchSends(p: Params, st: Split, contiguous: nat, h: Progress) returns (h': Progress)
    requires Sent(p, st, h) && !st.finished && st.status == Working && StartsStretch(p, st) && contiguous > 0
    ensures Sent(p, StartStretch(p, st, contiguous), h')
    ensures NoneEmpty(h') <==> NoneEmpty(h) && LeftInVolume(p, st) != 3
  {
    hide ClosedAre, NoEmptyStretch, Header, SmallPieces;
    var size := StretchSize(p, st, contiguous);
    h' := h;
    if size == 0 {
      h' := h.(pieces := h.pieces + [[]]);
      EmptyPieceDone(p.session, st.open, h);
    }
  }

  lemma EmptyPieceDone(s: Session, open: Bytes, h: Progress)
    requires OpenIs(s, |h.vols| + 1, 0, open, h)
    ensures var h' := h.(pieces := h.pieces + [[]]);
            && OpenIs(s, |h.vols| + 1, 0, open + StretchHeader(0, DATA), h')
            && Joined(h'.pieces) == Joined(h.pieces) && !NoEmptyPiece(h'.pieces)
  {
    hide SmallPieces, Joined, DataStretches, Header, StretchHeader;
    SmallSnoc(h.pieces, []);
    JoinedSnoc(h.pieces, []);
    assert Stretch(DATA, []) == StretchHeader(0, DATA);
    assert (h.pieces + [[]])[|h.pieces|] == [];
  }

  lemma WriteSends(p: Params, st: Split, n: nat, h: Progress) returns (h': Progress)
    requires Sent(p, st, h) && !st.finished && st.status == Working && n <= |st.queue| && n <= st.left && st.left > 0
    ensures Sent(p, WriteSome(st, n), h') && (NoneEmpty(h') <==> NoneEmpty(h))
  {
    hide ClosedAre, NoEmptyStretch, SmallPieces;
    var part := h.part + st.queue[..n];
    PartGrows(p, st, n, h, part);
    if n == st.left {
      h' := h.(pieces := h.pieces + [part], part := []);
      PieceDone(p, WriteSome(st, n), h, part);
      assert forall x :: x in h'.pieces <==> x in h.pieces || x == part;
    } else {
      h' := h.(part := part);
    }
  }

  lemma PartGrows(p: Params, st: Split, n: nat, h: Progress, part: Bytes)
    requires Sent(p, st, h) && !st.finished && st.status == Working && n <= |st.queue| && n <= st.left && st.left > 0
    requires part == h.part + st.queue[..n]
    ensures WriteSome(st, n).open == Header(p.session, |h.vols|, h.date) + DataStretches(h.pieces)
            + (StretchHeader(|part| + WriteSome(st, n).left, DATA) + part)
    ensures WriteSome(st, n).fed == Stream(h.vols) + Joined(h.pieces) + part
  {
    hide ClosedAre;
  }

  lemma PieceDone(p: Params, st: Split, h: Progress, part: Bytes)
    requires st.left == 0 && st.number == |h.vols| + 1 && SmallPieces(h.pieces) && |part| <= 0xffff
    requires st.open == Header(p.session, |h.vols|, h.date) + DataStretches(h.pieces) + (StretchHeader(|part|, DATA) + part)
    requires st.fed == Stream(h.vols) + Joined(h.pieces) + part
    ensures var h' := h.(pieces := h.pieces + [part], part := []);
            OpenIs(p.session, st.number, st.left, st.open, h') && st.fed == Stream(h'.vols) + Joined(h'.pieces) + h'.part
  {
    hide SmallPieces, Joined, DataStretches;
    JoinedSnoc(h.pieces, part);
    SmallSnoc(h.pieces, part);
    assert Stretch(DATA, part) == StretchHeader(|part|, DATA) + part;
  }

  /** The open volume with its trailer is a volume. */
  lemma TrailerSeals(p: Params, st: Split, h: Progress, kind: Byte)
    requires Sent(p, st, h) && !st.finished && st.status == Working && st.left == 0
    ensures st.open + Trailer(p.f, st.fed, kind)
            == VolumeBytes(p.f, p.session, |h.vols|, Volume(h.date, h.pieces), Stream(h.vols), kind)
    ensures st.fed == Stream(Sealed(h))
  {
    StreamSnoc(h.vols, Volume(h.date, h.pieces));
    assert st.fed == Stream(h.vols) + Joined(h.pieces);
    assert st.open == Header(p.session, |h.vols|, h.date) + DataStretches(h.pieces);
  }

  lemma CloseSends(p: Params, st: Split, h: Progress) returns (h': Progress)
    requires Sent(p, st, h) && !st.finished && st.status == Working && st.left == 0
    ensures Sent(p, CloseVolume(p, st), h') && (NoneEmpty(h') <==> NoneEmpty(h))
  {
    TrailerSeals(p, st, h, VOLUME_EOF);
    h' := Progress(Sealed(h), 0, [], []);
    ClosedSnoc(p, st.closed, st.open + Trailer(p.f, st.fed, VOLUME_EOF), h);
    SealedEmpty(h);
  }

  lemma SealedEmpty(h: Progress)
    ensures NoEmptyStretch(Sealed(h)) <==> NoneEmpty(h)
  {
    assert Sealed(h)[|h.vols|].pieces == h.pieces;
    assert forall v :: v in Sealed(h) <==> v in h.vols || v == Volume(h.date, h.pieces);
  }

  lemma SealedSmall(h: Progress)
    requires SmallVolumes(h.vols) && SmallPieces(h.pieces)
    ensures SmallVolumes(Sealed(h))
  {
    hide SmallPieces;
  }

  lemma LastIs(p: Params, last: Bytes, h: Progress, kind: Byte)
    requires last == VolumeBytes(p.f, p.session, |h.vols|, Volume(h.date, h.pieces), Stream(h.vols), kind)
    ensures VolumeIs(p.f, p.session, Sealed(h), |h.vols|, kind, last)
  {
    hide VolumeBytes, Stream;
    assert Sealed(h)[..|h.vols|] == h.vols;
  }

  lemma ClosedSnoc(p: Params, closed: seq<Bytes>, last: Bytes, h: Progress)
    requires ClosedAre(p, closed, h.vols) && SmallPieces(h.pieces)
    requires last == VolumeBytes(p.f, p.session, |h.vols|, Volume(h.date, h.pieces), Stream(h.vols), VOLUME_EOF)
    ensures ClosedAre(p, closed + [last], Sealed(h))
  {
    SealedSmall(h);
    LastIs(p, last, h, VOLUME_EOF);
    hide VolumeIs, SmallVolumes;
    forall k | 0 <= k < |h.vols| ensures VolumeIs(p.f, p.session, Sealed(h), k, VOLUME_EOF, closed[k]) {
      VolumeIsSnoc(p.f, p.session, h.vols, Volume(h.date, h.pieces), k, VOLUME_EOF, closed[k]);
    }
  }

  lemma SessionSeals(p: Params, closed: seq<Bytes>, last: Bytes, h: Progress)
    requires ClosedAre(p, closed, h.vols) && SmallPieces(h.pieces)
    requires last == VolumeBytes(p.f, p.session, |h.vols|, Volume(h.date, h.pieces), Stream(h.vols), SESSION_EOF)
    ensures IsSession(p.f, p.session, Sealed(h), closed + [last])
  {
    SealedSmall(h);
    LastIs(p, last, h, SESSION_EOF);
    hide VolumeIs, SmallVolumes;
    forall k | 0 <= k < |h.vols| ensures VolumeIs(p.f, p.session, Sealed(h), k, VOLUME_EOF, closed[k]) {
      VolumeIsSnoc(p.f, p.session, h.vols, Volume(h.date, h.pieces), k, VOLUME_EOF, closed[k]);
    }
  }

  lemma FinishSends(p: Params, st: Split, h: Progress)
    requires Sent(p, st, h) && !st.finished && st.left == 0 && Accounted(p, st) && Drained(st)
    ensures Sent(p, FinishSession(p, st), h)
  {
    hide VolumeBytes, SmallVolumes, SmallPieces;
    if st.status == Working {
      TrailerSeals(p, st, h, SESSION_EOF);
      SessionSeals(p, st.closed, st.open + Trailer(p.f, st.fed, SESSION_EOF), h);
    }
  }

  lemma StepSends(p: Params, st: Split, a: Action, h: Progress) returns (h': Progress)
    requires Sent(p, st, h) && Accounted(p, st) && Legal(p, st, a)
    ensures Sent(p, Apply(p, st, a), h')
    ensures NoneEmpty(h') <==> NoneEmpty(h) && !StartsEmpty(p, st, a)
  {
    hide ClosedAre, OpenIs;
    h' := h;
    match a
    case Read(chunk) =>
    case InputEof =>
    case Spawn(date) =>
      SpawnSends(p, st, date, h);
      h' := h.(date := date);
    case Output(contiguous, accepted) =>
      if StartsStretch(p, st) {
        h' := StretchSends(p, st, contiguous, h);
      } else if WriteLength(p, st, contiguous) == 0 {
        h' := CloseSends(p, st, h);
      } else {
        h' := WriteSends(p, st, accepted, h);
      }
    case ChildExit =>
    case Finish =>
      FinishSends(p, st, h);
  }

  lemma {:induction false} RunSends(p: Params, st: Split, run: seq<Action>, h: Progress) returns (h': Progress)
    requires Sent(p, st, h) && Accounted(p, st) && LegalRun(p, st, run)
    ensures Sent(p, Run(p, st, run), h')
    ensures NoneEmpty(h') <==> NoneEmpty(h) && NeverStartsEmpty(p, st, run)
    decreases |run|
  {
    hide Sent, Accounted;
    h' := h;
    if run != [] {
      StepAccounts(p, st, run[0]);
      h' := StepSends(p, st, run[0], h);
      h' := RunSends(p, Apply(p, st, run[0]), run[1..], h');
    }
  }

  /** Whatever chunks the input arrives in and however little the pipe accepts at a time, a finished run has
      written the volumes of one session, in order, whose data is the input; and it wrote an empty Data stretch
      exactly when a stretch was started with three octets left. */
  lemma SplitWritesASession(p: Params, run: seq<Action>) returns (vols: seq<Volume>)
    requires LegalRun(p, START, run) && Run(p, START, run).finished
    ensures IsSession(p.f, p.session, vols, Run(p, START, run).closed)
    ensures Stream(vols) == InputOf(run)
    ensures vols == [] <==> InputOf(run) == []
    ensures NoEmptyStretch(vols) <==> NeverStartsEmpty(p, START, run)
  {
    hide LegalRun, Run, InputOf, NeverStartsEmpty, IsSession, ClosedAre, NoEmptyStretch, NoEmptyPiece;
    var st := Run(p, START, run);
    StartSends(p);
    var h := RunSends(p, START, run, Progress([], 0, [], []));
    RunAccounts(p, START, run);
    RunConserves(p, START, run);
    assert st.queue == [] && st.fed + st.queue == st.fed;
    assert START.fed + START.queue + InputOf(run) == InputOf(run);
    if st.status == Working {
      vols := Sealed(h);
      StreamSnoc(h.vols, Volume(h.date, h.pieces));
      SealedEmpty(h);
    } else {
      vols := [];
      NothingSent(p, h);
    }
  }

  lemma StartSends(p: Params)
    ensures Sent(p, START, Progress([], 0, [], [])) && Accounted(p, START) && NoneEmpty(Progress([], 0, [], []))
  {
  }

  lemma NothingSent(p: Params, h: Progress)
    requires h.vols == [] && h.pieces == []
    ensures NoneEmpty(h) && NoEmptyStretch([]) && IsSession(p.f, p.session, [], [])
  {
  }
}
