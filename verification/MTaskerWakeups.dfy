/** Who is woken when, and what waitEvent returns. */
module MTaskerWakeups {
  import opened MTasker
  import opened MTaskerRuns
  import opened Wrappers

  // ---- First in, first out --------------------------------------------------------------------

  lemma {:induction false} LogGrows(st: Tasker, calls: Slice)
    ensures st.log <= RunSlice(st, calls).log
    decreases |calls|
  {
    if calls != [] && calls[0].MakeThread? {
      LogGrows(Make(st), calls[1..]);
    } else if calls != [] && calls[0].WaitEvent? && Find(st.waiters, calls[0].key) < |st.waiters| {
      LogGrows(st.(log := st.log + [Refused(st.tid)]), calls[1..]);
    }
  }

  lemma {:induction false} QueueGrows(st: Tasker, calls: Slice)
    ensures st.runQueue <= RunSlice(st, calls).runQueue
    decreases |calls|
  {
    if calls != [] && calls[0].MakeThread? {
      QueueGrows(Make(st), calls[1..]);
    } else if calls != [] && calls[0].WaitEvent? && Find(st.waiters, calls[0].key) < |st.waiters| {
      QueueGrows(st.(log := st.log + [Refused(st.tid)]), calls[1..]);
    }
  }

  function Schedules(ops: seq<Op>): nat {
    if ops == [] then 0 else (if ops[0].ScheduleOp? then 1 else 0) + Schedules(ops[1..])
  }

  /** With threads in the run queue, schedule takes the front one and everything else adds at the end. */
  lemma OpQueues(st: Tasker, op: Op)
    requires st.runQueue != []
    ensures !Apply(st, op).hung
    ensures (if op.ScheduleOp? then st.runQueue[1..] else st.runQueue) <= Apply(st, op).st.runQueue
  {
    hide RunSlice;
    match op
    case MakeOp =>
    case SendOp(key, val, calls) =>
      var i := Find(st.waiters, key);
      if i < |st.waiters| {
        var w := st.waiters[i];
        QueueGrows(Resume(st.(log := st.log + [Sent(key, val)], waitstatus := Answer,
                              waitval := if val.Some? then val.value else st.waitval, tid := w.tid,
                              eventkey := w.key, waiters := Without(st.waiters, i)), w), calls);
      }
    case ScheduleOp(now, slices) =>
      QueueGrows(Switch(st.(log := st.log + [Scheduled(now)])), Head(slices));
  }

  /** The thread at position k of the run queue is the one the schedule call after k others switches to,
      whatever events are sent and threads made in between. */
  lemma {:induction false} FirstInFirstOut(st: Tasker, ops: seq<Op>, now: Time, slices: seq<Slice>)
    requires Schedules(ops) < |st.runQueue|
    ensures var st', k := Run(st, ops), Schedules(ops);
            && st'.runQueue != [] && st'.runQueue[0] == st.runQueue[k]
            && st'.log + [Scheduled(now), Switched(st.runQueue[k])] <= Schedule(st', now, slices).st.log
    decreases |ops|
  {
    hide RunSlice;
    if ops == [] {
      var started := Switch(st.(log := st.log + [Scheduled(now)]));
      LogGrows(started, Head(slices));
      assert started.log == st.log + [Scheduled(now), Switched(st.runQueue[0])];
    } else {
      OpQueues(st, ops[0]);
      FirstInFirstOut(Apply(st, ops[0]).st, ops[1..], now, slices);
    }
  }

  // ---- What the record of a run may be --------------------------------------------------------

  ghost function PendingAfter(waits: set<Waiter>, e: Entry): set<Waiter> {
    match e
    case Suspended(w) => waits + {w}
    case Returned(_, _, key, _) => set v | v in waits && v.key != key
    case _ => waits
  }

  /** The waits that suspended and did not return yet. */
  ghost function Pending(log: seq<Entry>): set<Waiter> {
    if log == [] then {} else PendingAfter(Pending(log[..|log| - 1]), log[|log| - 1])
  }

  function RunningAfter(running: Option<nat>, e: Entry): Option<nat> {
    match e
    case Switched(tid) => Some(tid)
    case Returned(tid, _, _, _) => Some(tid)
    case _ => running
  }

  /** The thread that has control, or had it last. */
  function Running(log: seq<Entry>): Option<nat> {
    if log == [] then None else RunningAfter(Running(log[..|log| - 1]), log[|log| - 1])
  }

  /** The event or the clock the kernel acts on. */
  function Cause(log: seq<Entry>): Option<Entry> {
    if log == [] then None
    else if log[|log| - 1].Sent? || log[|log| - 1].Scheduled? then Some(log[|log| - 1])
    else Cause(log[..|log| - 1])
  }

  ghost predicate WaitsFor(log: seq<Entry>, w: Waiter) {
    w in Pending(log)
  }

  /** waitEvent answers only right after an event was sent to its key, with that very key and value; it times out
      only when its deadline is before the time schedule was called with; and what a thread does is recorded
      under its own name. */
  ghost predicate EntryOk(before: seq<Entry>, e: Entry) {
    match e
    case Returned(tid, Answer, key, val) =>
      && before != [] && before[|before| - 1].Sent? && before[|before| - 1].key == key
      && val.Some? && (before[|before| - 1].val.Some? ==> val == before[|before| - 1].val)
      && exists w :: WaitsFor(before, w) && w.tid == tid && w.key == key
    case Returned(tid, TimeOut, key, val) =>
      && Cause(before).Some? && Cause(before).value.Scheduled? && val == None
      && exists w :: WaitsFor(before, w) && w.tid == tid && w.key == key && Expired(w.ttd, Cause(before).value.now)
    case Suspended(w) =>
      Running(before) == Some(w.tid) && forall v :: WaitsFor(before, v) ==> v.key != w.key
    case Yielded(tid) => Running(before) == Some(tid)
    case Exited(tid) => Running(before) == Some(tid)
    case Refused(tid) => Running(before) == Some(tid)
    case _ => true
  }

  ghost predicate LogOk(log: seq<Entry>) {
    log == [] || (LogOk(log[..|log| - 1]) && EntryOk(log[..|log| - 1], log[|log| - 1]))
  }

  lemma {:induction false} LogSnoc(log: seq<Entry>, e: Entry)
    ensures LogOk(log + [e]) <==> LogOk(log) && EntryOk(log, e)
    ensures Pending(log + [e]) == PendingAfter(Pending(log), e)
    ensures Running(log + [e]) == RunningAfter(Running(log), e)
    ensures Cause(log + [e]) == if e.Sent? || e.Scheduled? then Some(e) else Cause(log)
  {
    assert (log + [e])[..|log|] == log;
  }

  /** A wait ends at most once: between two returns for a key there was a new wait for it. */
  lemma {:induction false} ReturnsOnce(log: seq<Entry>, i: nat, j: nat)
    requires LogOk(log) && i < j < |log| && log[i].Returned? && log[j].Returned? && log[i].key == log[j].key
    ensures exists k :: i < k < j && log[k].Suspended? && log[k].waiter.key == log[j].key
  {
    var key := log[j].key;
    PrefixOk(log, j);
    if forall k :: i < k < j ==> !(log[k].Suspended? && log[k].waiter.key == key) {
      StaysGone(log, i, j, key);
    }
  }

  lemma {:induction false} PrefixOk(log: seq<Entry>, j: nat)
    requires LogOk(log) && j < |log|
    ensures LogOk(log[..j]) && EntryOk(log[..j], log[j])
    decreases |log|
  {
    if j < |log| - 1 {
      PrefixOk(log[..|log| - 1], j);
      assert log[..|log| - 1][..j] == log[..j];
    }
  }

  lemma {:induction false} StaysGone(log: seq<Entry>, i: nat, j: nat, key: int)
    requires i < j <= |log| && log[i].Returned? && log[i].key == key
    requires forall k :: i < k < j ==> !(log[k].Suspended? && log[k].waiter.key == key)
    ensures forall w :: w in Pending(log[..j]) ==> w.key != key
  {
    var last := log[j - 1];
    assert log[..j] == log[..j - 1] + [last];
    LogSnoc(log[..j - 1], last);
    if j - 1 > i {
      StaysGone(log, i, j - 1, key);
    }
  }

  // ---- The record of every run is of that kind ------------------------------------------------

  /** The waiters are the waits that did not return. */
  ghost predicate Tracks(ws: seq<Waiter>, log: seq<Entry>) {
    forall w :: w in ws <==> w in Pending(log)
  }

  ghost predicate Recorded(st: Tasker) {
    LogOk(st.log) && Tracks(st.waiters, st.log)
  }

  lemma InsertIn(ws: seq<Waiter>, w: Waiter, v: Waiter)
    ensures v in Insert(ws, w) <==> v in ws || v == w
  {
    var p := UpperBound(ws, w.ttd);
    assert ws == ws[..p] + ws[p..];
  }

  lemma WithoutIn(ws: seq<Waiter>, i: nat, v: Waiter)
    requires DistinctKeys(ws) && i < |ws|
    ensures v in Without(ws, i) <==> v in ws && v.key != ws[i].key
  {
    var u := Without(ws, i);
    assert forall k :: 0 <= k < |u| ==> u[k] == if k < i then ws[k] else ws[k + 1];
    if v in ws && v.key != ws[i].key {
      var k :| 0 <= k < |ws| && ws[k] == v;
      assert u[if k < i then k else k - 1] == v;
    }
  }

  lemma QuietRecords(st: Tasker, e: Entry)
    requires Recorded(st) && EntryOk(st.log, e) && !e.Suspended? && !e.Returned?
    ensures Recorded(st.(log := st.log + [e]))
    ensures e.Switched? || Running(st.log + [e]) == Running(st.log)
  {
    LogSnoc(st.log, e);
  }

  lemma SuspendRecords(st: Tasker, w: Waiter)
    requires Recorded(st) && Running(st.log) == Some(w.tid) && Find(st.waiters, w.key) == |st.waiters|
    ensures Recorded(Suspend(st, w))
  {
    LogSnoc(st.log, Suspended(w));
    forall v ensures v in Insert(st.waiters, w) <==> v in st.waiters || v == w {
      InsertIn(st.waiters, w, v);
    }
  }

  lemma {:induction false} SliceRecords(st: Tasker, calls: Slice)
    requires Recorded(st) && Running(st.log) == Some(st.tid)
    ensures Recorded(RunSlice(st, calls))
    decreases |calls|
  {
    hide Recorded, Insert;
    if calls == [] {
      QuietRecords(st, Exited(st.tid));
      SameRecord(st.(log := st.log + [Exited(st.tid)]), RunSlice(st, calls));
    } else if calls[0].MakeThread? {
      QuietRecords(st, Made(st.maxtid));
      SameRecord(st.(log := st.log + [Made(st.maxtid)]), Make(st));
      SliceRecords(Make(st), calls[1..]);
    } else if calls[0].Yield? {
      QuietRecords(st, Yielded(st.tid));
      SameRecord(st.(log := st.log + [Yielded(st.tid)]), RunSlice(st, calls));
    } else if Find(st.waiters, calls[0].key) < |st.waiters| {
      QuietRecords(st, Refused(st.tid));
      SliceRecords(st.(log := st.log + [Refused(st.tid)]), calls[1..]);
    } else {
      SuspendRecords(st, WaiterFor(st, calls[0]));
    }
  }

  lemma SameRecord(a: Tasker, b: Tasker)
    requires Recorded(a) && a.log == b.log && a.waiters == b.waiters
    ensures Recorded(b)
  {
  }

  /** A waiter that is taken out and returns as the registers say. */
  lemma ReturnRecords(st: Tasker, i: nat, e: Entry, st': Tasker)
    requires Recorded(st) && DistinctKeys(st.waiters) && i < |st.waiters|
    requires e.Returned? && e.key == st.waiters[i].key && EntryOk(st.log, e)
    requires st'.waiters == Without(st.waiters, i) && st'.log == st.log + [e] && st'.tid == e.tid
    ensures Recorded(st') && Running(st'.log) == Some(st'.tid)
  {
    LogSnoc(st.log, e);
    forall v ensures v in st'.waiters <==> v in st.waiters && v.key != e.key {
      WithoutIn(st.waiters, i, v);
    }
  }

  lemma SendRecords(st: Tasker, key: int, val: Option<int>, calls: Slice)
    requires Recorded(st) && DistinctKeys(st.waiters)
    ensures Recorded(SendEvent(st, key, val, calls))
  {
    hide RunSlice;
    var sent, i := st.(log := st.log + [Sent(key, val)]), Find(st.waiters, key);
    QuietRecords(st, Sent(key, val));
    if i < |st.waiters| {
      var w := st.waiters[i];
      var woken := Resume(sent.(waitstatus := Answer, waitval := if val.Some? then val.value else st.waitval,
                                tid := w.tid, eventkey := w.key, waiters := Without(st.waiters, i)), w);
      assert WaitsFor(sent.log, w);
      ReturnRecords(sent, i, woken.log[|sent.log|], woken);
      SliceRecords(woken, calls);
    }
  }

  lemma {:induction false} LateRecords(st: Tasker, i: nat, calls: Slice, now: Time)
    requires Recorded(st) && DistinctKeys(st.waiters) && i < |st.waiters|
    requires Cause(st.log) == Some(Scheduled(now)) && Expired(st.waiters[i].ttd, now)
    ensures Recorded(RunSlice(WakeLate(st, i), calls))
  {
    hide RunSlice;
    var woken := WakeLate(st, i);
    assert WaitsFor(st.log, st.waiters[i]);
    ReturnRecords(st, i, woken.log[|st.log|], woken);
    SliceRecords(woken, calls);
  }

  /** What threads do leaves the cause as it is. */
  lemma {:induction false} SliceKeepsCause(st: Tasker, calls: Slice)
    ensures Cause(RunSlice(st, calls).log) == Cause(st.log)
    decreases |calls|
  {
    if calls == [] {
      LogSnoc(st.log, Exited(st.tid));
    } else if calls[0].MakeThread? {
      LogSnoc(st.log, Made(st.maxtid));
      SliceKeepsCause(Make(st), calls[1..]);
    } else if calls[0].Yield? {
      LogSnoc(st.log, Yielded(st.tid));
    } else if Find(st.waiters, calls[0].key) < |st.waiters| {
      LogSnoc(st.log, Refused(st.tid));
      SliceKeepsCause(st.(log := st.log + [Refused(st.tid)]), calls[1..]);
    } else {
      LogSnoc(st.log, Suspended(WaiterFor(st, calls[0])));
    }
  }

  lemma {:induction false} PassRecords(st: Tasker, now: Time, at: Option<int>, slices: seq<Slice>)
    requires Recorded(st) && Inv(st) && Cause(st.log) == Some(Scheduled(now))
    ensures Recorded(TimeoutPass(st, now, at, slices).st)
    decreases |slices|, |st.waiters|
  {
    hide RunSlice, Recorded, Partitioned, Counted;
    if at != None && Find(st.waiters, at.value) < |st.waiters| {
      var i := Find(st.waiters, at.value);
      if st.waiters[i].ttd.sec != 0 && Before(st.waiters[i].ttd, now) {
        var woken, calls := WakeLate(st, i), Head(slices);
        LateRecords(st, i, calls, now);
        LateKeeps(st, i, calls);
        LogSnoc(st.log, woken.log[|st.log|]);
        SliceKeepsCause(woken, calls);
        SliceShrinks(woken, calls);
        PassRecords(RunSlice(woken, calls), now, IteratorAt(st.waiters, i + 1), Tail(slices));
      }
    }
  }

  lemma {:induction false} OpRecords(st: Tasker, op: Op)
    requires Recorded(st) && Inv(st)
    ensures Recorded(Apply(st, op).st)
  {
    hide RunSlice, TimeoutPass, Recorded, Partitioned, Counted;
    match op
    case MakeOp =>
      QuietRecords(st, Made(st.maxtid));
      SameRecord(st.(log := st.log + [Made(st.maxtid)]), Make(st));
    case SendOp(key, val, calls) =>
      SendRecords(st, key, val, calls);
    case ScheduleOp(now, slices) =>
      var started := st.(log := st.log + [Scheduled(now)]);
      QuietRecords(st, Scheduled(now));
      LogSnoc(st.log, Scheduled(now));
      StartedKeeps(st, now);
      if st.runQueue != [] {
        FrontRecords(started, Head(slices));
      } else if st.zombies != [] {
        QuietRecords(started, Reaped(st.zombies[0]));
        SameRecord(started.(log := started.log + [Reaped(st.zombies[0])]), Reap(started));
      } else if st.waiters != [] {
        PassRecords(started, now, IteratorAt(st.waiters, 0), slices);
      }
  }

  lemma {:induction false} FrontRecords(st: Tasker, calls: Slice)
    requires Recorded(st) && st.runQueue != []
    ensures var ran := RunSlice(Switch(st), calls); Recorded(ran.(runQueue := Popped(ran.runQueue)))
  {
    hide RunSlice;
    LogSnoc(st.log, Switched(st.runQueue[0]));
    SliceRecords(Switch(st), calls);
  }

  lemma {:induction false} RunRecordsFrom(st: Tasker, ops: seq<Op>)
    requires Recorded(st) && Inv(st)
    ensures Recorded(Run(st, ops))
    decreases |ops|
  {
    hide Inv, Apply, Recorded;
    if ops != [] {
      OpRecords(st, ops[0]);
      OpKeeps(st, ops[0]);
      if !Apply(st, ops[0]).hung {
        RunRecordsFrom(Apply(st, ops[0]).st, ops[1..]);
      }
    }
  }

  /** Every run records only returns that may be. */
  lemma {:induction false} RunRecords(tid: nat, waitval: int, waitstatus: WaitStatus, eventkey: int, ops: seq<Op>)
    ensures LogOk(Run(Initial(tid, waitval, waitstatus, eventkey), ops).log)
  {
    var st := Initial(tid, waitval, waitstatus, eventkey);
    assert Inv(st) && Recorded(st);
    RunRecordsFrom(st, ops);
  }
}
