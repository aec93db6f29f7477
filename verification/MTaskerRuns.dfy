/** What the scheduler keeps in every state the kernel sees. */
module MTaskerRuns {
  import opened MTasker
  import opened Wrappers

  /** How often a thread is in a queue. */
  function Count(s: seq<nat>, t: nat): nat {
    if s == [] then 0 else Count(s[..|s| - 1], t) + if s[|s| - 1] == t then 1 else 0
  }

  function Tids(ws: seq<Waiter>): seq<nat> {
    seq(|ws|, i requires 0 <= i < |ws| => ws[i].tid)
  }

  /** In how many places a thread is. */
  function Places(st: Tasker, t: nat): nat {
    Count(st.runQueue, t) + Count(st.zombies, t) + Count(Tids(st.waiters), t)
  }

  function Live(st: Tasker, t: nat): nat {
    if t in st.threads then 1 else 0
  }

  function One(b: bool): nat {
    if b then 1 else 0
  }

  ghost predicate SortedByDeadline(ws: seq<Waiter>) {
    forall i, j :: 0 <= i < j < |ws| ==> !Before(ws[j].ttd, ws[i].ttd)
  }

  ghost predicate DistinctKeys(ws: seq<Waiter>) {
    forall i, j :: 0 <= i < j < |ws| ==> ws[i].key != ws[j].key
  }

  ghost predicate Indexed(ws: seq<Waiter>) {
    SortedByDeadline(ws) && DistinctKeys(ws)
  }

  ghost predicate Numbered(st: Tasker) {
    forall t :: t in st.threads ==> t < st.maxtid
  }

  /** Every live thread is in exactly one place, once, and no other thread is in any. */
  ghost predicate Partitioned(st: Tasker) {
    forall t: nat :: Places(st, t) == Live(st, t)
  }

  /** Threads created are the live ones and the reaped ones. */
  function ReapedIn(log: seq<Entry>): nat {
    if log == [] then 0 else ReapedIn(log[..|log| - 1]) + if log[|log| - 1].Reaped? then 1 else 0
  }

  function MadeIn(log: seq<Entry>): nat {
    if log == [] then 0 else MadeIn(log[..|log| - 1]) + if log[|log| - 1].Made? then 1 else 0
  }

  ghost predicate Counted(log: seq<Entry>, created: nat, live: nat) {
    MadeIn(log) == created == live + ReapedIn(log)
  }

  ghost predicate Kept(st: Tasker) {
    Indexed(st.waiters) && Numbered(st) && Counted(st.log, st.maxtid, |st.threads|)
  }

  // ---- The index ------------------------------------------------------------------------------

  lemma {:induction false} UpperBoundSplits(ws: seq<Waiter>, ttd: Time)
    requires SortedByDeadline(ws)
    ensures var p := UpperBound(ws, ttd);
            && (forall i :: 0 <= i < p ==> !Before(ttd, ws[i].ttd))
            && (forall i :: p <= i < |ws| ==> Before(ttd, ws[i].ttd))
  {
    if ws != [] && !Before(ttd, ws[0].ttd) {
      UpperBoundSplits(ws[1..], ttd);
      var p := UpperBound(ws[1..], ttd);
      assert forall i :: 1 <= i < p + 1 ==> ws[i] == ws[1..][i - 1];
      assert forall i :: p + 1 <= i < |ws| ==> ws[i] == ws[1..][i - 1];
    }
  }

  lemma {:induction false} CountConcat(a: seq<nat>, b: seq<nat>, t: nat)
    ensures Count(a + b, t) == Count(a, t) + Count(b, t)
  {
    if b == [] {
      assert a + b == a;
    } else {
      CountConcat(a, b[..|b| - 1], t);
      assert (a + b)[..|a + b| - 1] == a + b[..|b| - 1];
    }
  }

  lemma {:induction false} CountPush(s: seq<nat>, x: nat, t: nat)
    ensures Count(s + [x], t) == Count(s, t) + One(x == t)
  {
    assert (s + [x])[..|s|] == s;
  }

  lemma {:induction false} CountPop(s: seq<nat>, t: nat)
    requires s != []
    ensures Count(s, t) == Count(s[1..], t) + One(s[0] == t)
  {
    CountConcat([s[0]], s[1..], t);
    CountPush([], s[0], t);
    assert s == [s[0]] + s[1..] && [] + [s[0]] == [s[0]];
  }

  lemma {:induction false} CountInsert(a: seq<nat>, x: nat, b: seq<nat>, t: nat)
    ensures Count(a + [x] + b, t) == Count(a + b, t) + One(x == t)
  {
    CountConcat(a + [x], b, t);
    CountPush(a, x, t);
    CountConcat(a, b, t);
  }

  lemma {:induction false} InsertCounts(ws: seq<Waiter>, w: Waiter, t: nat)
    ensures Count(Tids(Insert(ws, w)), t) == Count(Tids(ws), t) + One(w.tid == t)
  {
    hide UpperBound, Count;
    var p, tids := UpperBound(ws, w.ttd), Tids(ws);
    CountInsert(tids[..p], w.tid, tids[p..], t);
    assert tids[..p] + tids[p..] == tids;
    assert Tids(Insert(ws, w)) == tids[..p] + [w.tid] + tids[p..];
  }

  lemma {:induction false} WithoutCounts(ws: seq<Waiter>, i: nat, t: nat)
    requires i < |ws|
    ensures Count(Tids(ws), t) == Count(Tids(Without(ws, i)), t) + One(ws[i].tid == t)
  {
    var tids := Tids(ws);
    CountInsert(tids[..i], tids[i], tids[i + 1..], t);
    assert tids[..i] + [tids[i]] + tids[i + 1..] == tids;
    assert Tids(Without(ws, i)) == tids[..i] + tids[i + 1..];
  }

  lemma {:induction false} InsertKeeps(ws: seq<Waiter>, w: Waiter)
    requires Indexed(ws) && Find(ws, w.key) == |ws|
    ensures Indexed(Insert(ws, w))
  {
    UpperBoundSplits(ws, w.ttd);
    assert forall i :: 0 <= i < |ws| ==> ws[i].key != w.key;
    hide UpperBound, Find;
    var u, p := Insert(ws, w), UpperBound(ws, w.ttd);
    forall i, j | 0 <= i < j < |u| ensures !Before(u[j].ttd, u[i].ttd) && u[i].key != u[j].key {
      InsertedAt(ws, w, p, i);
      InsertedAt(ws, w, p, j);
    }
  }

  lemma WithoutKeeps(ws: seq<Waiter>, i: nat)
    requires Indexed(ws) && i < |ws|
    ensures Indexed(Without(ws, i))
  {
    var u := Without(ws, i);
    assert forall k :: 0 <= k < |u| ==> u[k] == if k < i then ws[k] else ws[k + 1];
  }

  lemma {:induction false} CountSnoc(log: seq<Entry>, e: Entry)
    ensures MadeIn(log + [e]) == MadeIn(log) + if e.Made? then 1 else 0
    ensures ReapedIn(log + [e]) == ReapedIn(log) + if e.Reaped? then 1 else 0
  {
    assert (log + [e])[..|log|] == log;
  }

  // ---- A slice --------------------------------------------------------------------------------

  lemma MakeKeeps(st: Tasker, t: nat)
    requires Kept(st)
    ensures Kept(Make(st))
    ensures Places(Make(st), t) - Live(Make(st), t) == Places(st, t) - Live(st, t)
  {
    hide Indexed, Count, MadeIn, ReapedIn;
    CountSnoc(st.log, Made(st.maxtid));
    CountPush(st.runQueue, st.maxtid, t);
    assert st.maxtid !in st.threads;
  }

  /** The running thread, which is counted in no place for its running, ends up in exactly one; and what it does
      only adds at the end of the queues. */
  lemma {:induction false} SliceKeeps(st: Tasker, calls: Slice, t: nat)
    requires Kept(st)
    ensures var st' := RunSlice(st, calls);
            && Kept(st') && st.runQueue <= st'.runQueue && st.zombies <= st'.zombies && st'.threads >= st.threads
            && Places(st', t) - Live(st', t) == Places(st, t) - Live(st, t) + One(st.tid == t)
    decreases |calls|
  {
    hide Counted, Indexed, Count;
    if calls == [] {
      QuietKeeps(st, Exited(st.tid));
      CountPush(st.zombies, st.tid, t);
    } else if calls[0].MakeThread? {
      MakeKeeps(st, t);
      SliceKeeps(Make(st), calls[1..], t);
    } else if calls[0].Yield? {
      QuietKeeps(st, Yielded(st.tid));
      CountPush(st.runQueue, st.tid, t);
    } else if Find(st.waiters, calls[0].key) < |st.waiters| {
      QuietKeeps(st, Refused(st.tid));
      SliceKeeps(st.(log := st.log + [Refused(st.tid)]), calls[1..], t);
    } else {
      var w := WaiterFor(st, calls[0]);
      InsertKeeps(st.waiters, w);
      InsertCounts(st.waiters, w, t);
      QuietKeeps(st, Suspended(w));
    }
  }

  lemma QuietKeeps(st: Tasker, e: Entry)
    requires Counted(st.log, st.maxtid, |st.threads|) && !e.Made? && !e.Reaped?
    ensures Counted(st.log + [e], st.maxtid, |st.threads|)
  {
    CountSnoc(st.log, e);
  }

  // ---- The kernel's operations ----------------------------------------------------------------

  ghost predicate Inv(st: Tasker) {
    Kept(st) && Partitioned(st)
  }

  lemma {:induction false} ResumedKeeps(st: Tasker, i: nat, woken: Tasker, calls: Slice, t: nat)
    requires Inv(st) && i < |st.waiters| && Kept(woken)
    requires woken.runQueue == st.runQueue && woken.zombies == st.zombies && woken.threads == st.threads
    requires woken.waiters == Without(st.waiters, i) && woken.tid == st.waiters[i].tid
    ensures Kept(RunSlice(woken, calls))
    ensures Places(RunSlice(woken, calls), t) == Live(RunSlice(woken, calls), t)
  {
    hide Count, Counted, Indexed, RunSlice;
    assert Places(st, t) == Live(st, t);
    WithoutCounts(st.waiters, i, t);
    SliceKeeps(woken, calls, t);
  }

  /** An event that nobody waits for is only recorded. */
  lemma {:induction false} SentKeeps(st: Tasker, key: int, val: Option<int>)
    requires Inv(st)
    ensures Inv(st.(log := st.log + [Sent(key, val)]))
  {
    hide Count, Indexed;
    CountSnoc(st.log, Sent(key, val));
    var sent := st.(log := st.log + [Sent(key, val)]);
    assert Kept(sent);
    assert Partitioned(sent) by {
      forall t: nat ensures Places(sent, t) == Live(sent, t) {
        assert Places(st, t) == Live(st, t);
      }
    }
  }

  lemma {:induction false} WokenKeeps(st: Tasker, i: nat, woken: Tasker, calls: Slice)
    requires Inv(st) && i < |st.waiters| && Kept(woken)
    requires woken.runQueue == st.runQueue && woken.zombies == st.zombies && woken.threads == st.threads
    requires woken.waiters == Without(st.waiters, i) && woken.tid == st.waiters[i].tid
    ensures Inv(RunSlice(woken, calls))
  {
    hide Kept, Places, Live, RunSlice;
    forall t: nat ensures Places(RunSlice(woken, calls), t) == Live(RunSlice(woken, calls), t) {
      ResumedKeeps(st, i, woken, calls, t);
    }
    ResumedKeeps(st, i, woken, calls, 0);
  }

  lemma {:induction false} SendKeeps(st: Tasker, key: int, val: Option<int>, calls: Slice)
    requires Inv(st)
    ensures Inv(SendEvent(st, key, val, calls))
  {
    hide Count, Indexed, RunSlice, Partitioned;
    SentKeeps(st, key, val);
    var sent, i := st.(log := st.log + [Sent(key, val)]), Find(st.waiters, key);
    if i < |st.waiters| {
      var w := st.waiters[i];
      var woken := Resume(sent.(waitstatus := Answer, waitval := if val.Some? then val.value else st.waitval,
                                tid := w.tid, eventkey := w.key, waiters := Without(st.waiters, i)), w);
      WithoutKeeps(st.waiters, i);
      CountSnoc(sent.log, woken.log[|sent.log|]);
      WokenKeeps(st, i, woken, calls);
    }
  }

  lemma {:induction false} PassKeeps(st: Tasker, now: Time, at: Option<int>, slices: seq<Slice>)
    requires Inv(st)
    ensures Inv(TimeoutPass(st, now, at, slices).st)
    decreases |slices|, |st.waiters|
  {
    hide Count, Indexed, RunSlice, Partitioned;
    if at != None && Find(st.waiters, at.value) < |st.waiters| {
      var i := Find(st.waiters, at.value);
      if st.waiters[i].ttd.sec != 0 && Before(st.waiters[i].ttd, now) {
        LateKeeps(st, i, Head(slices));
        SliceShrinks(WakeLate(st, i), Head(slices));
        PassKeeps(RunSlice(WakeLate(st, i), Head(slices)), now, IteratorAt(st.waiters, i + 1), Tail(slices));
      }
    }
  }

  lemma {:induction false} SliceShrinks(st: Tasker, calls: Slice)
    ensures calls == [] ==> RunSlice(st, calls).waiters == st.waiters
  {
  }

  lemma {:induction false} LateKeeps(st: Tasker, i: nat, calls: Slice)
    requires Inv(st) && i < |st.waiters|
    ensures Inv(RunSlice(WakeLate(st, i), calls))
  {
    hide Count, Indexed, RunSlice;
    var woken := WakeLate(st, i);
    WithoutKeeps(st.waiters, i);
    CountSnoc(st.log, woken.log[|st.log|]);
    forall t: nat ensures Places(RunSlice(woken, calls), t) == Live(RunSlice(woken, calls), t) {
      ResumedKeeps(st, i, woken, calls, t);
    }
    ResumedKeeps(st, i, woken, calls, 0);
  }

  lemma ReapKeeps(st: Tasker)
    requires Inv(st) && st.zombies != []
    ensures Inv(Reap(st))
  {
    hide Indexed, Count;
    var z := st.zombies[0];
    CountSnoc(st.log, Reaped(z));
    CountPop(st.zombies, z);
    assert Places(st, z) == Live(st, z);
    assert |st.threads - {z}| == |st.threads| - 1;
    forall t: nat ensures Places(Reap(st), t) == Live(Reap(st), t) {
      assert Places(st, t) == Live(st, t);
      CountPop(st.zombies, t);
    }
  }

  lemma {:induction false} FrontKeeps(st: Tasker, calls: Slice)
    requires Inv(st) && st.runQueue != []
    ensures var ran := RunSlice(Switch(st), calls); Inv(ran.(runQueue := Popped(ran.runQueue)))
  {
    hide Count, Indexed, RunSlice;
    var started := Switch(st);
    CountSnoc(st.log, Switched(st.runQueue[0]));
    var ran := RunSlice(started, calls);
    SliceKeeps(started, calls, 0);
    var st' := ran.(runQueue := Popped(ran.runQueue));
    forall t: nat ensures Places(st', t) == Live(st', t) {
      assert Places(st, t) == Live(st, t);
      SliceKeeps(started, calls, t);
      CountPop(ran.runQueue, t);
    }
  }

  /** Entering schedule changes nothing but the record. */
  lemma {:induction false} StartedKeeps(st: Tasker, now: Time)
    requires Inv(st)
    ensures Inv(st.(log := st.log + [Scheduled(now)]))
  {
    hide Indexed, Count;
    CountSnoc(st.log, Scheduled(now));
    var started := st.(log := st.log + [Scheduled(now)]);
    assert Kept(started);
    assert Partitioned(started) by {
      forall t: nat ensures Places(started, t) == Live(started, t) {
        assert Places(st, t) == Live(st, t);
      }
    }
  }

  lemma {:induction false} OpKeeps(st: Tasker, op: Op)
    requires Inv(st)
    ensures Inv(Apply(st, op).st)
  {
    hide Count, Indexed, RunSlice, TimeoutPass;
    match op
    case MakeOp =>
      MakeKeeps(st, 0);
      forall t: nat ensures Places(Make(st), t) == Live(Make(st), t) {
        assert Places(st, t) == Live(st, t);
        MakeKeeps(st, t);
      }
    case SendOp(key, val, calls) =>
      SendKeeps(st, key, val, calls);
    case ScheduleOp(now, slices) =>
      var started := st.(log := st.log + [Scheduled(now)]);
      StartedKeeps(st, now);
      if st.runQueue != [] {
        FrontKeeps(started, Head(slices));
      } else if st.zombies != [] {
        ReapKeeps(started);
      } else if st.waiters != [] {
        PassKeeps(started, now, IteratorAt(st.waiters, 0), slices);
      }
  }

  lemma {:induction false} RunKeepsFrom(st: Tasker, ops: seq<Op>)
    requires Inv(st)
    ensures Inv(Run(st, ops))
    decreases |ops|
  {
    hide Inv, Apply;
    if ops != [] {
      OpKeeps(st, ops[0]);
      if !Apply(st, ops[0]).hung {
        RunKeepsFrom(Apply(st, ops[0]).st, ops[1..]);
      }
    }
  }

  /** In every state of every run each live thread is in exactly one of run queue, zombie queue and waiters, once,
      no other thread is in any, and the threads created are the live ones and the reaped ones. */
  lemma {:induction false} RunKeeps(tid: nat, waitval: int, waitstatus: WaitStatus, eventkey: int, ops: seq<Op>, t: nat)
    ensures var st := Run(Initial(tid, waitval, waitstatus, eventkey), ops);
            && Places(st, t) == (if t in st.threads then 1 else 0)
            && |st.threads| + ReapedIn(st.log) == MadeIn(st.log) == st.maxtid
            && SortedByDeadline(st.waiters) && DistinctKeys(st.waiters)
  {
    var st := Initial(tid, waitval, waitstatus, eventkey);
    assert Inv(st);
    RunKeepsFrom(st, ops);
    var end := Run(st, ops);
    assert Places(end, t) == Live(end, t);
  }
}
