/** When the per-volume stretches do not fit the volume size less 2048, the subtraction goes below zero in
    unsigned arithmetic and a volume grows past any size asked for. */
module SplitPipeBound {
  import opened Octets
  import opened Md5Stream
  import opened SessionFormat
  import opened SplitPipe
  import opened SplitPipeLoop

  /** The volumes of a run are no larger than was asked for. */
  ghost predicate WithinSize(p: Params, run: seq<Action>) {
    LegalRun(p, START, run) ==>
      var st := Run(p, START, run);
      SizesWithin(st.closed, p.size) && (st.status == Working && !st.finished ==> |st.open| <= p.size)
  }

  /** n octets are read one by one. */
  lemma {:induction false} Fill(p: Params, n: nat) returns (run: seq<Action>)
    requires n <= p.bufferSize
    ensures Reached(p, START.(queue := Zeros(n)), run, InputOf(run))
  {
    run := [];
    assert START.(queue := Zeros(0)) == START;
    if n > 0 {
      run := Fill(p, n - 1);
      assert Zeros(n - 1) + [0] == Zeros(n);
      ReachedNext(p, START.(queue := Zeros(n - 1)), run, InputOf(run), Read([0]));
      run := run + [Read([0])];
    }
  }

  /** Between stretches of an open volume with something buffered. */
  predicate Between(p: Params, st: Split) {
    st.status == Working && st.left == 0 && !st.eof && !st.finished && 0 < |st.queue| <= p.bufferSize
  }

  function AfterCycle(st: Split): Split
    requires st.queue != []
  {
    st.(queue := st.queue[1..] + [0], fed := st.fed + st.queue[..1],
        open := st.open + StretchHeader(1, DATA) + st.queue[..1], amount := ((st.amount + 3) % U64 + 1) % U64)
  }

  /** A stretch of one octet is started and written, and one more octet is read. */
  lemma Cycle(p: Params, st: Split, run: seq<Action>) returns (run': seq<Action>)
    requires Reached(p, st, run, InputOf(run)) && Between(p, st) && LeftInVolume(p, st) >= 4
    ensures Reached(p, AfterCycle(st), run', InputOf(run')) && Between(p, AfterCycle(st))
    ensures |AfterCycle(st).open| == |st.open| + 4 && LeftInVolume(p, AfterCycle(st)) == LeftInVolume(p, st) - 4
  {
    hide Reached, HeaderLength;
    LeftAfter(Budget(p), st.amount, 3);
    ReachedNext(p, st, run, InputOf(run), Output(1, 0));
    var st1 := StartStretch(p, st, 1);
    assert st1.left == 1 && WriteLength(p, st1, 1) == 1;
    LeftAfter(Budget(p), st1.amount, 1);
    var input := InputOf(run) + [];
    ReachedNext(p, st1, run + [Output(1, 0)], input, Output(1, 1));
    var st2 := WriteSome(st1, 1);
    ReachedNext(p, st2, run + [Output(1, 0)] + [Output(1, 1)], input + [], Read([0]));
    run' := run + [Output(1, 0)] + [Output(1, 1)] + [Read([0])];
    assert Apply(p, st2, Read([0])) == AfterCycle(st);
    assert Reached(p, AfterCycle(st), run', input + [] + [0]);
    ReachedInput(p, AfterCycle(st), run', input + [] + [0]);
  }

  lemma {:induction false} ReachedInput(p: Params, st: Split, run: seq<Action>, input: Bytes)
    requires Reached(p, st, run, input)
    ensures input == InputOf(run)
  {
  }

  lemma {:induction false} Grow(p: Params, st: Split, run: seq<Action>) returns (st': Split, run': seq<Action>)
    requires Reached(p, st, run, InputOf(run)) && Between(p, st)
    requires LeftInVolume(p, st) + |st.open| > p.size + 4
    ensures Reached(p, st', run', InputOf(run')) && Between(p, st') && |st'.open| > p.size
    decreases p.size + 1 - |st.open|
  {
    hide Reached;
    if |st.open| > p.size {
      st', run' := st, run;
    } else {
      run' := Cycle(p, st, run);
      st', run' := Grow(p, AfterCycle(st), run');
    }
  }

  lemma HugeRoom(size: nat, header: nat, budget: nat)
    requires 0 < size < U64 && header < 0x1_1000 && size < header + 2048 && budget == (size - 2048) % U64
    ensures header % U64 == header && (budget - header) % U64 + header > size + 4
  {
    if size >= 2048 {
      DivUnique(budget - header, U64, -1, U64 + size - 2048 - header);
    } else {
      DivUnique(size - 2048, U64, -1, U64 + size - 2048);
      DivUnique(budget - header, U64, 0, budget - header);
    }
  }

  lemma SizeExceeded(p: Params) returns (run: seq<Action>)
    requires 0 < p.size < U64 && p.bufferSize > 0 && Encodable(p.session) && !HeaderFits(p)
    ensures !WithinSize(p, run)
  {
    var n := p.bufferSize / 2 + 1;
    run := Fill(p, n);
    var st := START.(queue := Zeros(n));
    ReachedNext(p, st, run, InputOf(run), Spawn(0));
    run := run + [Spawn(0)];
    HugeRoom(p.size, HeaderLength(p.session), Budget(p));
    var st1 := Apply(p, st, Spawn(0));
    ReachedInput(p, st1, run, InputOf(run[..|run| - 1]) + []);
    st, run := Grow(p, st1, run);
  }

  /** Every volume of every run keeps to the size asked for exactly when that size has room for the per-volume
      stretches and the 2048 octets set aside. */
  lemma VolumeBoundIff(p: Params)
    requires 0 < p.size < U64 && p.bufferSize > 0 && Encodable(p.session)
    ensures (forall run :: WithinSize(p, run)) <==> HeaderLength(p.session) + 2048 <= p.size
  {
    if HeaderFits(p) {
      forall run | LegalRun(p, START, run) ensures WithinSize(p, run) {
        VolumeBound(p, run);
      }
    } else {
      var run := SizeExceeded(p);
    }
  }
}
