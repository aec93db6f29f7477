/** The cooperative scheduler: who is suspended where. A thread is what it does each time it is given control,
    a slice: the calls it makes until one of them suspends it, or until its function returns. */
module MTasker {
  import opened Wrappers


  // ---- Time -----------------------------------------------------------------------------------

  datatype Time = Time(sec: nat, usec: nat)

  predicate Before(a: Time, b: Time) {
    a.sec < b.sec || (a.sec == b.sec && a.usec < b.usec)
  }

  /** The sum is normalised when there is more than a second of microseconds in it; exactly one stays. */
  function Plus(a: Time, b: Time): Time {
    var usec := a.usec + b.usec;
    if usec > 1_000_000 then Time(a.sec + b.sec + 1, usec - 1_000_000) else Time(a.sec + b.sec, usec)
  }

  /** A timeout of zero stands for none, and so does the deadline Time(0, 0). */
  function Deadline(timeoutMsec: nat, now: Time): Time {
    if timeoutMsec == 0 then Time(0, 0) else Plus(Time(timeoutMsec / 1000, 1000 * (timeoutMsec % 1000)), now)
  }

  predicate Expired(ttd: Time, now: Time) {
    ttd.sec != 0 && Before(ttd, now)
  }

  lemma DeadlineIsLater(timeoutMsec: nat, now: Time, earlier: Time)
    requires !Before(now, earlier)
    ensures !Expired(Deadline(timeoutMsec, now), earlier)
  {
  }

  // ---- State ----------------------------------------------------------------------------------

  datatype Waiter = Waiter(key: int, ttd: Time, tid: nat)

  datatype WaitStatus = TimeOut | Answer

  /** A call a thread can make. WaitEvent carries the clock the deadline is computed from. */
  datatype Call = MakeThread | WaitEvent(key: int, timeoutMsec: nat, now: Time) | Yield

  type Slice = seq<Call>

  /** What happened, for stating what may happen; the program keeps no such record. Returned is what a waitEvent
      that suspended gives to its caller. */
  datatype Entry =
    | Made(tid: nat)
    | Switched(tid: nat)
    | Suspended(waiter: Waiter)
    | Refused(tid: nat)
    | Yielded(tid: nat)
    | Exited(tid: nat)
    | Reaped(tid: nat)
    | Sent(key: int, val: Option<int>)
    | Scheduled(now: Time)
    | Returned(tid: nat, status: WaitStatus, key: int, val: Option<int>)

  datatype Tasker = Tasker(
    runQueue: seq<nat>, zombies: seq<nat>, waiters: seq<Waiter>, threads: set<nat>, tid: nat, maxtid: nat,
    waitval: int, waitstatus: WaitStatus, eventkey: int, log: seq<Entry>)

  /** Before the first thread; the registers hold anything. */
  function Initial(tid: nat, waitval: int, waitstatus: WaitStatus, eventkey: int): Tasker {
    Tasker([], [], [], {}, tid, 0, waitval, waitstatus, eventkey, [])
  }

  // ---- The waiter index -----------------------------------------------------------------------

  /** Where a waiter goes in the order by deadline: behind those with the same one. */
  function UpperBound(ws: seq<Waiter>, ttd: Time): (p: nat)
    ensures p <= |ws|
  {
    if ws == [] || Before(ttd, ws[0].ttd) then 0 else 1 + UpperBound(ws[1..], ttd)
  }

  function Insert(ws: seq<Waiter>, w: Waiter): seq<Waiter> {
    var p := UpperBound(ws, w.ttd);
    ws[..p] + [w] + ws[p..]
  }

  /** The position of the waiter for a key, or the length. */
  function Find(ws: seq<Waiter>, key: int): (p: nat)
    ensures p <= |ws|
    ensures p < |ws| ==> ws[p].key == key
    ensures forall i :: 0 <= i < p ==> ws[i].key != key
  {
    if ws == [] || ws[0].key == key then 0 else 1 + Find(ws[1..], key)
  }

  function Without<T>(s: seq<T>, i: nat): seq<T>
    requires i < |s|
  {
    s[..i] + s[i + 1..]
  }

  // ---- What a thread does ---------------------------------------------------------------------

  function Make(st: Tasker): Tasker {
    st.(threads := st.threads + {st.maxtid}, runQueue := st.runQueue + [st.maxtid], maxtid := st.maxtid + 1,
        log := st.log + [Made(st.maxtid)])
  }

  /** waitEvent up to the switch to the kernel. */
  function Suspend(st: Tasker, w: Waiter): Tasker {
    st.(waiters := Insert(st.waiters, w), log := st.log + [Suspended(w)])
  }

  function WaiterFor(st: Tasker, c: Call): Waiter
    requires c.WaitEvent?
  {
    Waiter(c.key, Deadline(c.timeoutMsec, c.now), st.tid)
  }

  /** The running thread makes its calls until it is suspended or returns; then the kernel has control. A wait
      for a key somebody waits for already comes back at once with an error. */
  function RunSlice(st: Tasker, calls: Slice): Tasker
    decreases |calls|
  {
    if calls == [] then st.(zombies := st.zombies + [st.tid], log := st.log + [Exited(st.tid)])
    else match calls[0]
      case MakeThread => RunSlice(Make(st), calls[1..])
      case Yield => st.(runQueue := st.runQueue + [st.tid], log := st.log + [Yielded(st.tid)])
      case WaitEvent(key, _, _) =>
        if Find(st.waiters, key) < |st.waiters|
        then RunSlice(st.(log := st.log + [Refused(st.tid)]), calls[1..])
        else Suspend(st, WaiterFor(st, calls[0]))
  }

  /** waitEvent from the switch back on: the thread reads its result from the registers. */
  function Resume(st: Tasker, w: Waiter): Tasker {
    var val := if st.waitstatus == Answer then Some(st.waitval) else None;
    st.(tid := w.tid, log := st.log + [Returned(w.tid, st.waitstatus, st.eventkey, val)])
  }

  // ---- What the kernel does -------------------------------------------------------------------

  /** sendEvent; calls is what the woken thread does. */
  function SendEvent(st: Tasker, key: int, val: Option<int>, calls: Slice): Tasker {
    var sent := st.(log := st.log + [Sent(key, val)]);
    var i := Find(st.waiters, key);
    if i == |st.waiters| then sent
    else
      var w := st.waiters[i];
      var woken := sent.(waitstatus := Answer, waitval := if val.Some? then val.value else st.waitval, tid := w.tid,
                         eventkey := w.key, waiters := Without(st.waiters, i));
      RunSlice(Resume(woken, w), calls)
  }

  /** A waiter times out in the pass of schedule over the waiters. */
  function WakeLate(st: Tasker, i: nat): Tasker
    requires i < |st.waiters|
  {
    var w := st.waiters[i];
    Resume(st.(waitstatus := TimeOut, eventkey := w.key, waiters := Without(st.waiters, i)), w)
  }

  /** What the next thread that is given control does; with nothing left to do it returns. */
  function Head(slices: seq<Slice>): Slice {
    if slices == [] then [] else slices[0]
  }

  function Tail(slices: seq<Slice>): seq<Slice> {
    if slices == [] then [] else slices[1..]
  }

  /** An iterator is the key of the waiter it stands at, or nothing at the end. */
  function IteratorAt(ws: seq<Waiter>, i: nat): Option<int> {
    if i < |ws| then Some(ws[i].key) else None
  }

  datatype Outcome = Outcome(st: Tasker, more: bool, hung: bool)

  /** The pass over the waiters by deadline. A waiter without a deadline is not stepped over, so the loop stays
      at it for ever. */
  function TimeoutPass(st: Tasker, now: Time, at: Option<int>, slices: seq<Slice>): Outcome
    decreases |slices|, |st.waiters|
  {
    if at == None || Find(st.waiters, at.value) == |st.waiters| then Outcome(st, false, false)
    else
      var i := Find(st.waiters, at.value);
      if st.waiters[i].ttd.sec == 0 then Outcome(st, false, true)
      else if Before(st.waiters[i].ttd, now) then
        var next := IteratorAt(st.waiters, i + 1);
        TimeoutPass(RunSlice(WakeLate(st, i), Head(slices)), now, next, Tail(slices))
      else Outcome(st, false, false)
  }

  /** schedule: run the front of the run queue, or reap a zombie, or look for waiters that are late. */
  function Schedule(st: Tasker, now: Time, slices: seq<Slice>): Outcome {
    var started := st.(log := st.log + [Scheduled(now)]);
    if st.runQueue != [] then
      var ran := RunSlice(Switch(started), Head(slices));
      Outcome(ran.(runQueue := Popped(ran.runQueue)), true, false)
    else if st.zombies != [] then Outcome(Reap(started), true, false)
    else if st.waiters != [] then TimeoutPass(started, now, IteratorAt(st.waiters, 0), slices)
    else Outcome(started, false, false)
  }

  function Switch(st: Tasker): Tasker
    requires st.runQueue != []
  {
    st.(tid := st.runQueue[0], log := st.log + [Switched(st.runQueue[0])])
  }

  function Popped(queue: seq<nat>): seq<nat> {
    if queue == [] then [] else queue[1..]
  }

  function Reap(st: Tasker): Tasker
    requires st.zombies != []
  {
    st.(threads := st.threads - {st.zombies[0]}, zombies := st.zombies[1..], log := st.log + [Reaped(st.zombies[0])])
  }

  /** What the program that owns the scheduler does. */
  datatype Op =
    | MakeOp
    | SendOp(key: int, val: Option<int>, calls: Slice)
    | ScheduleOp(now: Time, slices: seq<Slice>)

  function Apply(st: Tasker, op: Op): Outcome {
    match op
    case MakeOp => Outcome(Make(st), true, false)
    case SendOp(key, val, calls) => Outcome(SendEvent(st, key, val, calls), true, false)
    case ScheduleOp(now, slices) => Schedule(st, now, slices)
  }

  /** A run of operations; nothing happens any more once the pass over the waiters hangs. */
  function Run(st: Tasker, ops: seq<Op>): Tasker
    decreases |ops|
  {
    if ops == [] then st
    else
      var o := Apply(st, ops[0]);
      if o.hung then o.st else Run(o.st, ops[1..])
  }
}
