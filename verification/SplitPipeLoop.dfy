/** splitpipe's event loop over the ring buffer and the checksum, step by step a run of the model. */
module SplitPipeLoop {
  import opened Octets
  import opened Md5Stream
  import opened SessionFormat
  import opened RingBuffers
  import opened SplitPipe

  /** What can be read from standard input: nothing yet, the end of it, or these octets and no more. */
  datatype Input = NotReady | Ended | Chunk(data: Bytes)

  /** What one turn of the loop meets: whether an output command may be started without asking or after the
      user pressed enter, the time, whether the output command exited, the input, whether the pipe can be
      written, and how much each write takes, zero standing for EAGAIN. */
  datatype Event = Event(
    spawn: bool, enter: bool, date: nat, childExited: bool, input: Input, writable: bool, accepts: seq<nat>)

  lemma {:induction false} RunConcat(p: Params, st: Split, a: seq<Action>, b: seq<Action>)
    requires LegalRun(p, st, a) && LegalRun(p, Run(p, st, a), b)
    ensures LegalRun(p, st, a + b) && Run(p, st, a + b) == Run(p, Run(p, st, a), b)
    decreases |a|
  {
    hide Apply, Legal;
    if a == [] {
      assert a + b == b;
    } else {
      RunConcat(p, Apply(p, st, a[0]), a[1..], b);
      assert (a + b)[1..] == a[1..] + b;
    }
  }

  lemma {:induction false} InputSnoc(run: seq<Action>, a: Action)
    ensures InputOf(run + [a]) == InputOf(run) + (if a.Read? then a.chunk else [])
  {
    if run == [] {
      assert run + [a] == [a] && [a][1..] == [];
    } else {
      InputSnoc(run[1..], a);
      assert (run + [a])[1..] == run[1..] + [a];
    }
  }

  lemma {:induction false} RunOne(p: Params, st: Split, a: Action)
    requires Legal(p, st, a)
    ensures LegalRun(p, st, [a]) && Run(p, st, [a]) == Apply(p, st, a)
  {
    hide Apply, Legal;
    assert [a][1..] == [];
  }

  lemma {:induction false} RunSnoc(p: Params, st: Split, run: seq<Action>, a: Action)
    requires LegalRun(p, st, run) && Legal(p, Run(p, st, run), a)
    ensures LegalRun(p, st, run + [a]) && Run(p, st, run + [a]) == Apply(p, Run(p, st, run), a)
  {
    hide Apply, Legal;
    RunOne(p, Run(p, st, run), a);
    RunConcat(p, st, run, [a]);
  }

  /** A state reached from the start by a legal run that reads the given input. */
  ghost predicate Reached(p: Params, st: Split, run: seq<Action>, input: Bytes) {
    LegalRun(p, START, run) && Run(p, START, run) == st && InputOf(run) == input
  }

  lemma ReachedNext(p: Params, st: Split, run: seq<Action>, input: Bytes, a: Action)
    requires Reached(p, st, run, input) && Legal(p, st, a)
    ensures Reached(p, Apply(p, st, a), run + [a], input + if a.Read? then a.chunk else [])
    ensures Accounted(p, Apply(p, st, a)) && (Apply(p, st, a).finished <==> a.Finish?)
  {
    RunAccounts(p, START, run);
    StepAccounts(p, st, a);
    hide Apply, Legal;
    RunSnoc(p, START, run, a);
    InputSnoc(run, a);
  }

  class SplitpipeClass {
    const p: Params
    const rb: RingBuffer
    const md5: MD5Summer

    var inputEof: bool
    var outputStatus: Status
    var leftInStretch: nat
    var amountOutputVolume: nat
    var volumeNumber: nat
    var finished: bool

    /** What the output commands received, the one running now last. */
    var written: seq<Bytes>
    var pipe: Bytes

    ghost predicate Valid()
      reads this, rb, rb.vector, md5, md5.context, md5.context.buffer
    {
      && rb.Valid() && rb.capacity == p.bufferSize && md5.Valid() && md5.context.process == p.f
      && rb.vector != md5.context.buffer
    }

    ghost function State(): Split
      requires Valid()
      reads this, rb, rb.vector, md5, md5.context, md5.context.buffer
    {
      Split(rb.Contents(), inputEof, outputStatus, leftInStretch, amountOutputVolume, volumeNumber, md5.Fed(),
            written, pipe, finished)
    }

    constructor (params: Params)
      ensures Valid() && p == params && State() == START
      ensures fresh(rb) && fresh(rb.vector) && fresh(md5) && fresh(md5.context) && fresh(md5.context.buffer)
    {
      p := params;
      rb := new RingBuffer(params.bufferSize);
      md5 := new MD5Summer(params.f);
      inputEof, outputStatus, leftInStretch, amountOutputVolume := false, Dead, 0, 0;
      volumeNumber, finished, written, pipe := 0, false, [], [];
    }

    method AppendStretch(kind: Byte, content: Bytes, stretches: Bytes) returns (r: Bytes)
      ensures r == stretches + Stretch(kind, content)
    {
      r := stretches + (Be16(|content|) + [kind] + content);
    }

    method PerVolumeStretches(date: nat) returns (stretches: Bytes)
      ensures stretches == Header(p.session, volumeNumber, date)
    {
      hide Stretch;
      stretches := AppendStretch(SESSION_UUID, p.session.uuid, []);
      stretches := AppendStretch(VOLUME_DATE, Be32(date), stretches);
      if p.session.name != [] {
        stretches := AppendStretch(SESSION_NAME, p.session.name, stretches);
      }
      stretches := AppendStretch(VOLUME_NUMBER, Be16(volumeNumber), stretches);
    }

    /** spawnOutputThread and outputPerVolumeStretches. */
    method SpawnOutput(date: nat)
      requires Valid() && Legal(p, State(), Spawn(date))
      modifies this`outputStatus, this`amountOutputVolume, this`volumeNumber, this`pipe
      ensures Valid() && State() == Apply(p, old(State()), Spawn(date))
    {
      hide Header, HeaderLength;
      pipe := PerVolumeStretches(date);
      amountOutputVolume := |pipe| % U64;
      volumeNumber := volumeNumber + 1;
      outputStatus := Working;
    }

    /** outputChecksum and the end of file stretch. */
    method OutputTrailer(kind: Byte)
      requires Valid()
      modifies this`written, this`pipe
      ensures Valid() && pipe == [] && written == old(written) + [old(pipe) + Trailer(p.f, md5.Fed(), kind)]
    {
      var sum := md5.Get();
      var stretches := AppendStretch(MD5_CHECKSUM, sum, []);
      stretches := AppendStretch(kind, [], stretches);
      assert stretches == Trailer(p.f, md5.Fed(), kind);
      written := written + [pipe + stretches];
      pipe := [];
    }

    /** read on standard input: nothing means the end of it. */
    method ReadInput(chunk: Bytes)
      requires Valid() && Legal(p, State(), if chunk == [] then InputEof else Read(chunk))
      modifies this`inputEof, rb`wpos, rb.vector
      ensures Valid() && State() == Apply(p, old(State()), if chunk == [] then InputEof else Read(chunk))
    {
      if chunk == [] {
        inputEof := true;
      } else {
        var ok := rb.Store(chunk);
      }
    }

    /** One round of the output loop; accept is how much the pipe would take. */
    method OutputRound(accept: nat) returns (contiguous: nat, n: nat, again: bool)
      requires Valid() && Accounted(p, State()) && !finished && outputStatus == Working && rb.Contents() != []
      modifies this`outputStatus, this`leftInStretch, this`amountOutputVolume, this`written, this`pipe
      modifies rb`rpos, md5.context, md5.context.buffer
      ensures Valid() && Legal(p, old(State()), Output(contiguous, n))
      ensures State() == Apply(p, old(State()), Output(contiguous, n))
      ensures again ==> 0 < n <= accept && outputStatus == Working
    {
      hide RingBuffer.Contents, Md5Context.Valid, RingBuffer.Valid;
      ghost var st := State();
      var at;
      at, contiguous := rb.Get();
      assert State() == st;
      var leftInVolume := LeftInVolumeNow();
      n, again := 0, false;
      if leftInVolume >= 3 && leftInStretch == 0 {
        BeginStretch(contiguous, leftInVolume);
        return;
      }
      var len := Min(Min(contiguous, leftInVolume), leftInStretch);
      if len == 0 {
        EndVolume();
        return;
      }
      n := Min(accept, len);
      assert rb.vector[at..at + n] == rb.vector[at..at + contiguous][..n];
      WriteOut(rb.vector[at..at + n]);
      again := n > 0;
    }

    function LeftInVolumeNow(): (r: nat)
      reads this
    {
      ((p.size - 2048) % U64 - amountOutputVolume) % U64
    }

    method BeginStretch(contiguous: nat, leftInVolume: nat)
      requires Valid() && leftInVolume == LeftInVolume(p, State()) && StartsStretch(p, State())
      modifies this`leftInStretch, this`amountOutputVolume, this`pipe
      ensures Valid() && State() == StartStretch(p, old(State()), contiguous)
    {
      hide RingBuffer.Contents, Md5Context.Valid, RingBuffer.Valid, StretchHeader;
      leftInStretch := Min(0xffff, contiguous);
      leftInStretch := Min(leftInStretch, leftInVolume - 3);
      pipe := pipe + StretchHeader(leftInStretch, DATA);
      amountOutputVolume := (amountOutputVolume + 3) % U64;
    }

    method EndVolume()
      requires Valid()
      modifies this`outputStatus, this`amountOutputVolume, this`written, this`pipe
      ensures Valid() && State() == CloseVolume(p, old(State()))
    {
      OutputTrailer(VOLUME_EOF);
      outputStatus, amountOutputVolume := Dying, 0;
    }

    method WriteOut(data: Bytes)
      requires Valid() && |data| <= leftInStretch < 0x1_0000_0000 && data <= rb.Contents()
      modifies this`leftInStretch, this`amountOutputVolume, this`pipe, rb`rpos, md5.context, md5.context.buffer
      ensures Valid() && State() == WriteSome(old(State()), |data|)
    {
      hide RingBuffer.Contents, Md5Context.Valid, RingBuffer.Valid;
      SumAndAdvance(data);
      pipe := pipe + data;
      amountOutputVolume := (amountOutputVolume + |data|) % U64;
      leftInStretch := leftInStretch - |data|;
    }

    method SumAndAdvance(data: Bytes)
      requires Valid() && data <= rb.Contents() && |data| < 0x1_0000_0000
      modifies rb`rpos, md5.context, md5.context.buffer
      ensures Valid() && md5.Fed() == old(md5.Fed()) + data && rb.Contents() == old(rb.Contents())[|data|..]
    {
      md5.Feed(data);
      assert rb.Contents() == old(rb.Contents());
      rb.Advance(|data|);
    }

    /** The output loop: it goes on while it wrote less than was just read and there is more. */
    method OutputLoop(bytesRead: nat, accepts: seq<nat>, ghost run: seq<Action>, ghost input: Bytes)
        returns (ghost run': seq<Action>)
      requires Valid() && Reached(p, State(), run, input) && Accounted(p, State())
      requires !finished && outputStatus == Working && rb.Contents() != []
      modifies this`outputStatus, this`leftInStretch, this`amountOutputVolume, this`written, this`pipe
      modifies rb`rpos, md5.context, md5.context.buffer
      ensures Valid() && Reached(p, State(), run', input) && Accounted(p, State())
    {
      hide RingBuffer.Contents, Md5Context.Valid, RingBuffer.Valid, Reached, Accounted, Apply, Legal;
      run' := run;
      var total, i := 0, 0;
      while true
        invariant Valid() && Reached(p, State(), run', input) && Accounted(p, State())
        invariant !finished && outputStatus == Working && rb.Contents() != []
        invariant i <= |accepts|
        decreases |accepts| - i
      {
        ghost var st := State();
        var contiguous, n, again := OutputRound(if i < |accepts| then accepts[i] else 0);
        ReachedNext(p, st, run', input, Output(contiguous, n));
        run' := run' + [Output(contiguous, n)];
        assert input + [] == input;
        total := total + n;
        if !again || !(total < bytesRead && rb.GetAvailable() > 0) {
          break;
        }
        i := i + 1;
      }
    }

    // ---- The event loop ---------------------------------------------------------------------

    predicate MaySpawn()
      requires Valid()
      reads this, rb, rb.vector, md5, md5.context, md5.context.buffer
    {
      outputStatus == Dead && (inputEof || 2 * rb.GetAvailable() > p.bufferSize)
    }

    method MaybeSpawn(date: nat, ready: bool, ghost run: seq<Action>, ghost input: Bytes)
        returns (ghost run': seq<Action>)
      requires Valid() && Reached(p, State(), run, input) && Accounted(p, State()) && !finished && !Drained(State())
      modifies this`outputStatus, this`amountOutputVolume, this`volumeNumber, this`pipe
      ensures Valid() && Reached(p, State(), run', input) && Accounted(p, State()) && !Drained(State())
      ensures rb.Contents() == old(rb.Contents())
    {
      hide RingBuffer.Contents, Md5Context.Valid, RingBuffer.Valid, Reached, Accounted;
      run' := run;
      if ready && MaySpawn() {
        ghost var st := State();
        SpawnOutput(date);
        ReachedNext(p, st, run, input, Spawn(date));
        run' := run + [Spawn(date)];
        assert input + [] == input;
      }
    }

    method MaybeReap(exited: bool, ghost run: seq<Action>, ghost input: Bytes) returns (ghost run': seq<Action>)
      requires Valid() && Reached(p, State(), run, input) && Accounted(p, State()) && !finished && !Drained(State())
      modifies this`outputStatus
      ensures Valid() && Reached(p, State(), run', input) && Accounted(p, State()) && !Drained(State())
    {
      hide RingBuffer.Contents, Md5Context.Valid, RingBuffer.Valid, Reached, Accounted;
      run' := run;
      if exited && outputStatus == Dying {
        ghost var st := State();
        outputStatus := Dead;
        ReachedNext(p, st, run, input, ChildExit);
        run' := run + [ChildExit];
        assert input + [] == input;
      }
    }

    /** Reads at most 100000 octets and at most what there is room for. */
    method MaybeRead(data: Input, ghost run: seq<Action>, ghost input: Bytes)
        returns (chunk: Bytes, ghost run': seq<Action>)
      requires Valid() && Reached(p, State(), run, input) && Accounted(p, State()) && !finished
      modifies this`inputEof, rb`wpos, rb.vector
      ensures Valid() && Reached(p, State(), run', input + chunk) && Accounted(p, State())
    {
      hide RingBuffer.Contents, Md5Context.Valid, RingBuffer.Valid, Reached, Accounted;
      run', chunk := run, [];
      var room := rb.GetRoom();
      assert input + [] == input;
      if data.NotReady? || inputEof || room == 0 || data == Chunk([]) {
        return;
      }
      if data.Chunk? {
        var size := Min(Min(100000, room), |data.data|);
        chunk := data.data[..size];
      }
      ghost var a := if chunk == [] then InputEof else Read(chunk);
      ghost var st := State();
      ReadInput(chunk);
      ReachedNext(p, st, run, input, a);
      run' := run + [a];
    }

    /** With the input ended and the buffer empty the session is finished. */
    method MaybeFinish(ghost run: seq<Action>, ghost input: Bytes) returns (ghost run': seq<Action>)
      requires Valid() && Reached(p, State(), run, input) && Accounted(p, State()) && !finished
      modifies this`finished, this`written, this`pipe
      ensures Valid() && Reached(p, State(), run', input) && Accounted(p, State())
      ensures finished <==> Drained(State())
    {
      hide RingBuffer.Contents, Md5Context.Valid, RingBuffer.Valid, Reached, Accounted;
      run' := run;
      if inputEof && rb.GetAvailable() == 0 {
        ghost var st := State();
        if outputStatus == Working {
          OutputTrailer(SESSION_EOF);
        }
        finished := true;
        ReachedNext(p, st, run, input, Finish);
        run' := run + [Finish];
        assert input + [] == input;
      }
    }

    /** One turn of the loop. */
    method Turn(e: Event, ghost run: seq<Action>, ghost input: Bytes) returns (chunk: Bytes, ghost run': seq<Action>)
      requires Valid() && Reached(p, State(), run, input) && Accounted(p, State()) && !finished && !Drained(State())
      modifies this, rb`rpos, rb`wpos, rb.vector, md5.context, md5.context.buffer
      ensures Valid() && Reached(p, State(), run', input + chunk) && Accounted(p, State())
      ensures finished <==> Drained(State())
    {
      hide RingBuffer.Contents, Md5Context.Valid, RingBuffer.Valid, Reached, Accounted;
      run' := MaybeSpawn(e.date, e.spawn, run, input);
      run' := MaybeReap(e.childExited, run', input);
      run' := MaybeSpawn(e.date, e.enter, run', input);
      chunk, run' := MaybeRead(e.input, run', input);
      if outputStatus == Working && rb.GetAvailable() > 0 && e.writable {
        run' := OutputLoop(|chunk|, e.accepts, run', input + chunk);
      }
      run' := MaybeFinish(run', input + chunk);
    }

    /** The whole program: every sequence of events makes a legal run over what was read. */
    method Go(events: seq<Event>) returns (input: Bytes, ghost run: seq<Action>)
      requires Valid() && State() == START
      modifies this, rb`rpos, rb`wpos, rb.vector, md5.context, md5.context.buffer
      ensures Valid() && Reached(p, State(), run, input)
    {
      input, run := [], [];
      for i := 0 to |events|
        invariant Valid() && Reached(p, State(), run, input) && Accounted(p, State())
        invariant finished <==> Drained(State())
      {
        if finished {
          break;
        }
        var chunk;
        chunk, run := Turn(events[i], run, input);
        input := input + chunk;
      }
    }
  }
}
