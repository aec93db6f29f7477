/** Whether splitpipe gets its input out at all: a new volume has to have room for a stretch header and one
    octet. */
module SplitPipeProgress {
  import opened Octets
  import opened Md5Stream
  import opened SessionFormat
  import opened SplitPipe
  import opened SplitPipeLoop

  /** What is left for data when the per-volume stretches of a new volume are written. */
  function FirstRoom(p: Params): nat {
    (Budget(p) - HeaderLength(p.session) % U64) % U64
  }

  /** A run that reads exactly this input and comes to its end. */
  ghost predicate Finishes(p: Params, run: seq<Action>, input: Bytes) {
    LegalRun(p, START, run) && Run(p, START, run).finished && InputOf(run) == input
  }

  // ---- With room for an octet -----------------------------------------------------------------

  lemma {:induction false} Steps(p: Params, st: Split, run: seq<Action>, input: Bytes, a: Action) returns (run': seq<Action>)
    requires Reached(p, st, run, input) && Legal(p, st, a) && !a.Read?
    ensures Reached(p, Apply(p, st, a), run', input)
  {
    ReachedNext(p, st, run, input, a);
    run' := run + [a];
    assert input + [] == input;
  }

  /** Between stretches, with something buffered and everything read or the buffer full enough. */
  predicate CanDrain(p: Params, st: Split) {
    && !st.finished && st.left == 0 && st.queue != [] && (st.eof || 2 * |st.queue| > p.bufferSize)
  }

  /** A new volume is open. */
  lemma {:induction false} OpensVolume(p: Params, st: Split, run: seq<Action>, input: Bytes) returns (st': Split, run': seq<Action>)
    requires Reached(p, st, run, input) && CanDrain(p, st) && st.status != Working
    ensures Reached(p, st', run', input) && CanDrain(p, st') && st'.status == Working
    ensures st'.queue == st.queue && st'.eof == st.eof && LeftInVolume(p, st') == FirstRoom(p)
  {
    hide Reached, HeaderLength;
    st', run' := st, run;
    if st.status == Dying {
      run' := Steps(p, st, run, input, ChildExit);
      st' := Apply(p, st, ChildExit);
    }
    var dead := st';
    run' := Steps(p, dead, run', input, Spawn(0));
    st' := Apply(p, dead, Spawn(0));
  }

  /** A volume without room for an octet is closed. */
  lemma {:induction false} ClosesVolume(p: Params, st: Split, run: seq<Action>, input: Bytes) returns (st': Split, run': seq<Action>)
    requires Reached(p, st, run, input) && CanDrain(p, st) && st.status == Working && LeftInVolume(p, st) < 4
    ensures Reached(p, st', run', input) && CanDrain(p, st') && st'.status != Working
    ensures st'.queue == st.queue && st'.eof == st.eof
  {
    hide Reached, Trailer;
    st', run' := st, run;
    if LeftInVolume(p, st) == 3 {
      LeftAfter(Budget(p), st.amount, 3);
      run' := Steps(p, st, run, input, Output(1, 0));
      st' := Apply(p, st, Output(1, 0));
    }
    var full := st';
    assert !StartsStretch(p, full) && WriteLength(p, full, 1) == 0;
    run' := Steps(p, full, run', input, Output(1, 0));
    st' := Apply(p, full, Output(1, 0));
  }

  /** With room for an octet one goes out. */
  lemma {:induction false} WritesOne(p: Params, st: Split, run: seq<Action>, input: Bytes) returns (st': Split, run': seq<Action>)
    requires Reached(p, st, run, input) && CanDrain(p, st) && st.status == Working && LeftInVolume(p, st) >= 4
    ensures Reached(p, st', run', input) && !st'.finished && st'.left == 0
    ensures st'.queue == st.queue[1..] && st'.eof == st.eof
  {
    hide Reached;
    LeftAfter(Budget(p), st.amount, 3);
    run' := Steps(p, st, run, input, Output(1, 0));
    var begun := Apply(p, st, Output(1, 0));
    assert begun.left == 1 && !StartsStretch(p, begun) && WriteLength(p, begun, 1) == 1;
    run' := Steps(p, begun, run', input, Output(1, 1));
    st' := Apply(p, begun, Output(1, 1));
  }

  lemma {:induction false} DrainsOne(p: Params, st: Split, run: seq<Action>, input: Bytes) returns (st': Split, run': seq<Action>)
    requires Reached(p, st, run, input) && CanDrain(p, st) && FirstRoom(p) >= 4
    ensures Reached(p, st', run', input) && !st'.finished && st'.left == 0
    ensures st'.queue == st.queue[1..] && st'.eof == st.eof
  {
    hide Reached, CanDrain, LeftInVolume, FirstRoom;
    st', run' := st, run;
    if st'.status == Working && LeftInVolume(p, st') < 4 {
      st', run' := ClosesVolume(p, st', run', input);
    }
    if st'.status != Working {
      st', run' := OpensVolume(p, st', run', input);
    }
    st', run' := WritesOne(p, st', run', input);
  }

  /** The buffer is filled an octet at a time and emptied an octet at a time until all is out. */
  lemma {:induction false} RunsOn(p: Params, st: Split, run: seq<Action>, input: Bytes, rest: Bytes) returns (run': seq<Action>)
    requires Reached(p, st, run, input) && p.bufferSize > 0 && FirstRoom(p) >= 4
    requires !st.finished && st.left == 0 && |st.queue| <= p.bufferSize && (st.eof ==> rest == [])
    ensures Finishes(p, run', input + rest)
    decreases 2 * |rest| + |st.queue|, !st.eof
  {
    hide FirstRoom;
    if rest != [] && |st.queue| < p.bufferSize {
      ReadsOne(p, st, run, input, rest[0]);
      run' := RunsOn(p, Apply(p, st, Read([rest[0]])), run + [Read([rest[0]])], input + [rest[0]], rest[1..]);
      assert input + [rest[0]] + rest[1..] == input + rest;
    } else if !st.eof && |st.queue| < p.bufferSize {
      run' := Steps(p, st, run, input, InputEof);
      run' := RunsOn(p, Apply(p, st, InputEof), run', input, rest);
    } else if st.queue != [] {
      var st';
      st', run' := DrainsOne(p, st, run, input);
      run' := RunsOn(p, st', run', input, rest);
    } else {
      run' := Steps(p, st, run, input, Finish);
      assert input + rest == input;
    }
  }

  lemma ReadsOne(p: Params, st: Split, run: seq<Action>, input: Bytes, c: Byte)
    requires Reached(p, st, run, input) && !st.finished && !st.eof && |st.queue| < p.bufferSize
    ensures Legal(p, st, Read([c])) && Reached(p, Apply(p, st, Read([c])), run + [Read([c])], input + [c])
  {
    ReachedNext(p, st, run, input, Read([c]));
  }

  // ---- Without --------------------------------------------------------------------------------

  /** Nothing was written yet, and the open volume has no room for an octet. */
  predicate Stuck(p: Params, st: Split) {
    st.fed == [] && st.left == 0 && (st.status == Working ==> LeftInVolume(p, st) < 4)
  }

  lemma {:induction false} StepStuck(p: Params, st: Split, a: Action)
    requires Stuck(p, st) && Legal(p, st, a) && FirstRoom(p) < 4
    ensures Stuck(p, Apply(p, st, a))
  {
    hide Trailer, Header, HeaderLength;
    if a.Output? && StartsStretch(p, st) {
      LeftAfter(Budget(p), st.amount, 3);
    }
  }

  lemma {:induction false} RunStuck(p: Params, st: Split, run: seq<Action>)
    requires Stuck(p, st) && LegalRun(p, st, run) && FirstRoom(p) < 4
    ensures Stuck(p, Run(p, st, run))
    decreases |run|
  {
    hide Stuck, Legal, Apply, FirstRoom;
    if run != [] {
      StepStuck(p, st, run[0]);
      RunStuck(p, Apply(p, st, run[0]), run[1..]);
    }
  }

  lemma {:induction false} NeverFinishes(p: Params, run: seq<Action>, input: Bytes)
    requires FirstRoom(p) < 4 && Finishes(p, run, input)
    ensures input == []
  {
    RunStuck(p, START, run);
    RunAccounts(p, START, run);
    RunConserves(p, START, run);
    assert START.fed + START.queue + InputOf(run) == InputOf(run);
  }

  lemma RoomIff(p: Params)
    requires 0 < p.size < U64 && Encodable(p.session)
    ensures var n := HeaderLength(p.session) + 2048; FirstRoom(p) >= 4 <==> !(n <= p.size < n + 4)
  {
    var h := HeaderLength(p.session);
    assert h % U64 == h;
    var b := (p.size - 2048) / U64;
    assert Budget(p) == p.size - 2048 - U64 * b && (b == 0 || b == -1);
    hide Budget, HeaderLength;
    if p.size >= h + 2048 {
      DivUnique(Budget(p) - h, U64, 0, p.size - 2048 - h);
    } else if b == 0 {
      DivUnique(Budget(p) - h, U64, -1, U64 + p.size - 2048 - h);
    } else {
      DivUnique(Budget(p) - h, U64, 0, U64 + p.size - 2048 - h);
    }
  }

  /** Some chunking and some pattern of partial writes gets this input out and comes to an end. */
  ghost predicate GetsOut(p: Params, input: Bytes) {
    exists run :: Finishes(p, run, input)
  }

  /** Every input gets out, unless the size asked for has room for the per-volume stretches and the 2048
      octets set aside but for fewer than four octets more: then nothing but the empty input does. */
  lemma {:induction false} GetsOutIff(p: Params, input: Bytes)
    requires 0 < p.size < U64 && p.bufferSize > 0 && Encodable(p.session)
    ensures var n := HeaderLength(p.session) + 2048;
            GetsOut(p, input) <==> input == [] || !(n <= p.size < n + 4)
  {
    RoomIff(p);
    StartReached(p);
    hide Finishes, FirstRoom, HeaderLength, Reached;
    if FirstRoom(p) >= 4 {
      var run := RunsOn(p, START, [], [], input);
      assert [] + input == input;
    } else if input == [] {
      var run := EndsAtOnce(p);
    } else if run :| Finishes(p, run, input) {
      NeverFinishes(p, run, input);
    }
  }

  lemma {:induction false} EndsAtOnce(p: Params) returns (run: seq<Action>)
    requires p.bufferSize > 0
    ensures Finishes(p, run, [])
  {
    StartReached(p);
    hide Reached;
    run := Steps(p, START, [], [], InputEof);
    run := Steps(p, Apply(p, START, InputEof), run, [], Finish);
    IsFinished(p, Apply(p, Apply(p, START, InputEof), Finish), run);
  }

  lemma IsFinished(p: Params, st: Split, run: seq<Action>)
    requires Reached(p, st, run, []) && st.finished
    ensures Finishes(p, run, [])
  {
  }

  lemma {:induction false} StartReached(p: Params)
    ensures Reached(p, START, [], [])
  {
  }
}
