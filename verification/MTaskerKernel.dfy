/** The scheduler's methods, which change its queues, index and registers in place. A switch of context to a thread
    is a call of RunThread with what the thread does. */
module MTaskerKernel {
  import opened MTasker
  import opened Wrappers

  class Scheduler {
    var runQueue: seq<nat>
    var zombiesQueue: seq<nat>
    var waiters: seq<Waiter>
    var threads: set<nat>
    var tid: nat
    var maxtid: nat
    var waitval: int
    var waitstatus: WaitStatus
    var eventkey: int

    ghost var log: seq<Entry>

    ghost function State(): Tasker
      reads this
    {
      Tasker(runQueue, zombiesQueue, waiters, threads, tid, maxtid, waitval, waitstatus, eventkey, log)
    }

    constructor ()
      ensures State() == Initial(0, 0, Answer, 0)
    {
      runQueue, zombiesQueue, waiters, threads := [], [], [], {};
      tid, maxtid, waitval, waitstatus, eventkey, log := 0, 0, 0, Answer, 0, [];
    }

    /** The lookup by key. */
    method FindWaiter(key: int) returns (i: nat)
      ensures i == Find(waiters, key)
    {
      i := 0;
      while i < |waiters| && waiters[i].key != key
        invariant i <= |waiters| && Find(waiters, key) == i + Find(waiters[i..], key)
      {
        assert waiters[i..][1..] == waiters[i + 1..];
        i := i + 1;
      }
    }

    /** The insertion into the index ordered by deadline. */
    method InsertWaiter(w: Waiter)
      modifies this`waiters
      ensures waiters == Insert(old(waiters), w)
    {
      var p := 0;
      while p < |waiters| && !Before(w.ttd, waiters[p].ttd)
        invariant p <= |waiters| && UpperBound(waiters, w.ttd) == p + UpperBound(waiters[p..], w.ttd)
      {
        assert waiters[p..][1..] == waiters[p + 1..];
        p := p + 1;
      }
      waiters := waiters[..p] + [w] + waiters[p..];
    }

    method MakeThread()
      modifies this`threads, this`runQueue, this`maxtid, this`log
      ensures State() == Make(old(State()))
    {
      threads := threads + {maxtid};
      runQueue := runQueue + [maxtid];
      log := log + [Made(maxtid)];
      maxtid := maxtid + 1;
    }

    /** waitEvent up to where it gives control to the kernel; false is the error return. */
    method WaitEvent(key: int, timeoutMsec: nat, now: Time) returns (suspended: bool)
      modifies this`waiters, this`log
      ensures suspended <==> Find(old(waiters), key) == |old(waiters)|
      ensures State() == if suspended then Suspend(old(State()), WaiterFor(old(State()), Call.WaitEvent(key, timeoutMsec, now)))
                         else old(State()).(log := old(log) + [Refused(tid)])
    {
      var i := FindWaiter(key);
      suspended := i == |waiters|;
      if suspended {
        var w := Waiter(key, Deadline(timeoutMsec, now), tid);
        InsertWaiter(w);
        log := log + [Suspended(w)];
      } else {
        log := log + [Refused(tid)];
      }
    }

    /** waitEvent after control came back: what it gives its caller. */
    method WaitReturns(w: Waiter) returns (status: WaitStatus, key: int, val: Option<int>)
      modifies this`tid, this`log
      ensures State() == Resume(old(State()), w) && log == old(log) + [Returned(tid, status, key, val)]
    {
      val := if waitstatus == Answer then Some(waitval) else None;
      tid := w.tid;
      key := eventkey;
      status := waitstatus;
      log := log + [Returned(tid, status, key, val)];
    }

    method Yield()
      modifies this`runQueue, this`log
      ensures State() == old(State()).(runQueue := old(runQueue) + [tid], log := old(log) + [Yielded(tid)])
    {
      runQueue := runQueue + [tid];
      log := log + [Yielded(tid)];
    }

    /** A thread has control until one of its calls suspends it or its function returns. */
    method RunThread(calls: Slice)
      modifies this`threads, this`runQueue, this`maxtid, this`waiters, this`zombiesQueue, this`log
      ensures State() == RunSlice(old(State()), calls)
      ensures calls == [] ==> waiters == old(waiters)
    {
      var i := 0;
      while i < |calls|
        invariant i <= |calls| && RunSlice(State(), calls[i..]) == RunSlice(old(State()), calls)
        invariant calls == [] ==> waiters == old(waiters)
        decreases |calls| - i
      {
        assert calls[i..][1..] == calls[i + 1..];
        match calls[i] {
          case MakeThread =>
            MakeThread();
          case Yield =>
            Yield();
            return;
          case WaitEvent(key, timeoutMsec, now) =>
            var suspended := WaitEvent(key, timeoutMsec, now);
            if suspended {
              return;
            }
        }
        i := i + 1;
      }
      zombiesQueue := zombiesQueue + [tid];
      log := log + [Exited(tid)];
    }

    /** One if a thread was woken, zero if none waited for the key. */
    method SendEvent(key: int, val: Option<int>, calls: Slice) returns (r: int)
      modifies this
      ensures State() == MTasker.SendEvent(old(State()), key, val, calls)
      ensures r == if Find(old(waiters), key) < |old(waiters)| then 1 else 0
    {
      hide RunSlice;
      log := log + [Sent(key, val)];
      var i := FindWaiter(key);
      if i == |waiters| {
        return 0;
      }
      waitstatus := Answer;
      if val.Some? {
        waitval := val.value;
      }
      var w := waiters[i];
      tid := w.tid;
      eventkey := w.key;
      waiters := waiters[..i] + waiters[i + 1..];
      var status, k, v := WaitReturns(w);
      RunThread(calls);
      r := 1;
    }

    /** schedule; hung says that it would not come back. */
    method Schedule(now: Time, slices: seq<Slice>) returns (more: bool, hung: bool)
      modifies this
      ensures MTasker.Schedule(old(State()), now, slices) == Outcome(State(), more, hung)
    {
      hide RunSlice, TimeoutPass;
      log := log + [Scheduled(now)];
      if runQueue != [] {
        tid := runQueue[0];
        log := log + [Switched(tid)];
        RunThread(Head(slices));
        runQueue := Popped(runQueue);
        return true, false;
      }
      if zombiesQueue != [] {
        log := log + [Reaped(zombiesQueue[0])];
        threads := threads - {zombiesQueue[0]};
        zombiesQueue := zombiesQueue[1..];
        return true, false;
      }
      more, hung := false, false;
      if waiters != [] {
        hung := WakeLateWaiters(now, slices);
      }
    }

    method WakeLateWaiters(now: Time, slices: seq<Slice>) returns (hung: bool)
      modifies this
      ensures TimeoutPass(old(State()), now, IteratorAt(old(waiters), 0), slices) == Outcome(State(), false, hung)
    {
      hide RunSlice;
      var at, rest := IteratorAt(waiters, 0), slices;
      while at.Some?
        invariant TimeoutPass(State(), now, at, rest) == TimeoutPass(old(State()), now, IteratorAt(old(waiters), 0), slices)
        decreases |rest|, |waiters|
      {
        var i := FindWaiter(at.value);
        if i == |waiters| {
          return false;
        }
        var w := waiters[i];
        if w.ttd.sec != 0 && Before(w.ttd, now) {
          waitstatus := TimeOut;
          eventkey := w.key;
          at := IteratorAt(waiters, i + 1);
          waiters := waiters[..i] + waiters[i + 1..];
          var status, key, val := WaitReturns(w);
          RunThread(Head(rest));
          rest := Tail(rest);
        } else {
          return w.ttd.sec == 0;
        }
      }
      hung := false;
    }
  }
}
