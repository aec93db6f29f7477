/** The pass of schedule over the waiters: which it wakes, and when it does not come to an end. */
module MTaskerTimeouts {
  import opened MTasker
  import opened MTaskerRuns
  import opened MTaskerWakeups
  import opened Wrappers

  /** The clock does not go back: what a woken thread waits for is not late already. */
  ghost predicate NotLate(c: Call, now: Time) {
    c.WaitEvent? ==> !Expired(Deadline(c.timeoutMsec, c.now), now)
  }

  ghost predicate NoneLate(slices: seq<Slice>, now: Time) {
    forall i, j :: 0 <= i < |slices| && 0 <= j < |slices[i]| ==> NotLate(slices[i][j], now)
  }

  /** The keys of the waiters at the front whose deadline has passed. */
  function LateKeys(ws: seq<Waiter>, now: Time): seq<int> {
    if ws == [] || !Before(ws[0].ttd, now) then [] else [ws[0].key] + LateKeys(ws[1..], now)
  }

  /** The keys of the waits that timed out, in order. */
  function TimedOut(log: seq<Entry>): seq<int> {
    if log == [] then []
    else
      var e := log[|log| - 1];
      TimedOut(log[..|log| - 1]) + if e.Returned? && e.status == TimeOut then [e.key] else []
  }

  lemma {:induction false} TimedOutSnoc(log: seq<Entry>, e: Entry)
    ensures TimedOut(log + [e]) == TimedOut(log) + if e.Returned? && e.status == TimeOut then [e.key] else []
  {
    assert (log + [e])[..|log|] == log;
  }

  predicate WaitsUntil(c: Call, ttd: Time) {
    c.WaitEvent? && ttd == Deadline(c.timeoutMsec, c.now)
  }

  /** What a slice does to the waiters: nothing, or it adds one. */
  lemma {:induction false} SliceWaits(st: Tasker, calls: Slice) returns (w: Option<Waiter>)
    ensures var st' := RunSlice(st, calls);
            && st'.waiters == (if w.Some? then Insert(st.waiters, w.value) else st.waiters)
            && (w.Some? ==> Find(st.waiters, w.value.key) == |st.waiters|)
            && TimedOut(st'.log) == TimedOut(st.log)
    ensures w.Some? ==> exists j :: 0 <= j < |calls| && WaitsUntil(calls[j], w.value.ttd)
    decreases |calls|
  {
    w := None;
    if calls == [] {
      TimedOutSnoc(st.log, Exited(st.tid));
    } else if calls[0].MakeThread? {
      TimedOutSnoc(st.log, Made(st.maxtid));
      w := SliceWaits(Make(st), calls[1..]);
    } else if calls[0].Yield? {
      TimedOutSnoc(st.log, Yielded(st.tid));
    } else if Find(st.waiters, calls[0].key) < |st.waiters| {
      TimedOutSnoc(st.log, Refused(st.tid));
      w := SliceWaits(st.(log := st.log + [Refused(st.tid)]), calls[1..]);
    } else {
      w := Some(WaiterFor(st, calls[0]));
      TimedOutSnoc(st.log, Suspended(w.value));
    }
  }

  // ---- The iterator ---------------------------------------------------------------------------

  lemma {:induction false} FindUnique(ws: seq<Waiter>, i: nat)
    requires DistinctKeys(ws) && i < |ws|
    ensures Find(ws, ws[i].key) == i
  {
  }

  /** Standing at position i, everything before it is not late. */
  ghost predicate PassAt(ws: seq<Waiter>, i: nat, at: Option<int>, now: Time) {
    && Indexed(ws) && i <= |ws| && at == IteratorAt(ws, i)
    && (forall j :: 0 <= j < i ==> !Expired(ws[j].ttd, now))
    && (forall j :: i <= j < |ws| ==> ws[j].ttd.sec != 0)
  }

  lemma InsertedBefore(ws: seq<Waiter>, i: nat, at: Option<int>, w: Waiter, now: Time, p: nat)
    requires PassAt(ws, i, at, now) && !Expired(w.ttd, now) && p <= i && Indexed(ws[..p] + [w] + ws[p..])
    ensures PassAt(ws[..p] + [w] + ws[p..], i + 1, at, now) && (ws[..p] + [w] + ws[p..])[i + 1..] == ws[i..]
  {
    hide Indexed;
    var u := ws[..p] + [w] + ws[p..];
    forall j | 0 <= j < |u| ensures (j < i + 1 ==> !Expired(u[j].ttd, now)) && (i + 1 <= j ==> u[j].ttd.sec != 0) {
      InsertedAt(ws, w, p, j);
    }
    assert i < |ws| ==> u[i + 1] == ws[i];
  }

  lemma InsertedBehind(ws: seq<Waiter>, i: nat, at: Option<int>, w: Waiter, now: Time, p: nat)
    requires PassAt(ws, i, at, now) && !Expired(w.ttd, now) && i < p <= |ws| && Indexed(ws[..p] + [w] + ws[p..])
    requires !Before(w.ttd, ws[i].ttd)
    ensures PassAt(ws[..p] + [w] + ws[p..], i, at, now)
    ensures (ws[..p] + [w] + ws[p..])[i..] == ws[i..][..p - i] + [w] + ws[i..][p - i..]
  {
    hide Indexed;
    var u := ws[..p] + [w] + ws[p..];
    forall j | 0 <= j < |u| ensures (j < i ==> !Expired(u[j].ttd, now)) && (i <= j ==> u[j].ttd.sec != 0) {
      InsertedAt(ws, w, p, j);
    }
    assert u[i] == ws[i];
  }

  /** A waiter that is not late is put before the iterator, or behind all that are late. */
  lemma InsertedPast(ws: seq<Waiter>, i: nat, at: Option<int>, w: Waiter, now: Time) returns (i': nat)
    requires PassAt(ws, i, at, now) && Find(ws, w.key) == |ws| && !Expired(w.ttd, now)
    ensures PassAt(Insert(ws, w), i', at, now)
    ensures LateKeys(Insert(ws, w)[i'..], now) == LateKeys(ws[i..], now)
  {
    InsertKeeps(ws, w);
    UpperBoundSplits(ws, w.ttd);
    hide UpperBound, Find, LateKeys, Indexed;
    var p := UpperBound(ws, w.ttd);
    if p <= i {
      i' := i + 1;
      InsertedBefore(ws, i, at, w, now, p);
    } else {
      i' := i;
      InsertedBehind(ws, i, at, w, now, p);
      assert w.ttd.sec != 0;
      LateKeysInsert(ws[i..], p - i, w, now);
    }
  }

  lemma {:induction false} LateKeysInsert(ws: seq<Waiter>, p: nat, w: Waiter, now: Time)
    requires p <= |ws| && !Before(w.ttd, now) && forall j :: p <= j < |ws| ==> Before(w.ttd, ws[j].ttd)
    ensures LateKeys(ws[..p] + [w] + ws[p..], now) == LateKeys(ws, now)
  {
    var u := ws[..p] + [w] + ws[p..];
    if p > 0 {
      assert u[1..] == ws[1..][..p - 1] + [w] + ws[1..][p - 1..];
      LateKeysInsert(ws[1..], p - 1, w, now);
    }
  }

  /** One waiter is woken, and the iterator goes to the next. */
  lemma WakesOne(st: Tasker, now: Time, i: nat, at: Option<int>, calls: Slice) returns (i': nat)
    requires PassAt(st.waiters, i, at, now) && i < |st.waiters| && Before(st.waiters[i].ttd, now)
    requires forall j :: 0 <= j < |calls| ==> NotLate(calls[j], now)
    ensures var st' := RunSlice(WakeLate(st, i), calls);
            && PassAt(st'.waiters, i', IteratorAt(st.waiters, i + 1), now)
            && TimedOut(st'.log) == TimedOut(st.log) + [st.waiters[i].key]
            && LateKeys(st.waiters[i..], now) == [st.waiters[i].key] + LateKeys(st'.waiters[i'..], now)
  {
    hide RunSlice, Find, UpperBound;
    var ws, woken := st.waiters, WakeLate(st, i);
    var rest := Without(ws, i);
    WithoutKeeps(ws, i);
    assert forall k :: 0 <= k < |rest| ==> rest[k] == if k < i then ws[k] else ws[k + 1];
    assert rest[i..] == ws[i + 1..] == ws[i..][1..];
    assert PassAt(rest, i, IteratorAt(ws, i + 1), now);
    TimedOutSnoc(st.log, woken.log[|st.log|]);
    var w := SliceWaits(woken, calls);
    i' := i;
    if w.Some? {
      i' := InsertedPast(rest, i, IteratorAt(ws, i + 1), w.value, now);
    }
  }

  lemma HeadNotLate(slices: seq<Slice>, now: Time)
    requires NoneLate(slices, now)
    ensures forall j :: 0 <= j < |Head(slices)| ==> NotLate(Head(slices)[j], now)
    ensures NoneLate(Tail(slices), now)
  {
    assert forall i :: 0 <= i < |Tail(slices)| ==> Tail(slices)[i] == slices[i + 1];
  }

  lemma {:induction false} PassDone(ws: seq<Waiter>, i: nat, at: Option<int>, now: Time)
    requires PassAt(ws, i, at, now) && (i < |ws| ==> !Before(ws[i].ttd, now))
    ensures LateKeys(ws[i..], now) == [] && NoLateWaiter(ws, now)
  {
    assert forall j :: i <= j < |ws| ==> !Before(ws[j].ttd, now);
  }

  predicate NoLateWaiter(ws: seq<Waiter>, now: Time) {
    forall w :: w in ws ==> !Expired(w.ttd, now)
  }

  lemma PassUnfolds(st: Tasker, now: Time, i: nat, at: Option<int>, slices: seq<Slice>)
    requires PassAt(st.waiters, i, at, now)
    ensures TimeoutPass(st, now, at, slices) ==
            if i < |st.waiters| && Before(st.waiters[i].ttd, now)
            then TimeoutPass(RunSlice(WakeLate(st, i), Head(slices)), now, IteratorAt(st.waiters, i + 1), Tail(slices))
            else Outcome(st, false, false)
  {
    hide RunSlice;
    if i < |st.waiters| {
      FindUnique(st.waiters, i);
    }
  }

  /** The pass goes on with the next waiter that is late. */
  lemma {:induction false} PassGoesOn(st: Tasker, now: Time, i: nat, at: Option<int>, slices: seq<Slice>) returns (next: Tasker, i': nat)
    requires PassAt(st.waiters, i, at, now) && NoneLate(slices, now) && i < |st.waiters| && Before(st.waiters[i].ttd, now)
    ensures TimeoutPass(st, now, at, slices) == TimeoutPass(next, now, IteratorAt(st.waiters, i + 1), Tail(slices))
    ensures i' <= |next.waiters| && PassAt(next.waiters, i', IteratorAt(st.waiters, i + 1), now) && NoneLate(Tail(slices), now)
    ensures TimedOut(next.log) + LateKeys(next.waiters[i'..], now) == TimedOut(st.log) + LateKeys(st.waiters[i..], now)
    ensures slices == [] ==> |next.waiters| < |st.waiters|
  {
    PassUnfolds(st, now, i, at, slices);
    hide RunSlice, TimeoutPass, NoneLate, LateKeys, TimedOut, PassAt, IteratorAt;
    HeadNotLate(slices, now);
    SliceShrinks(WakeLate(st, i), Head(slices));
    next := RunSlice(WakeLate(st, i), Head(slices));
    i' := WakesOne(st, now, i, at, Head(slices));
    Rejoined(TimedOut(st.log), st.waiters[i].key, LateKeys(next.waiters[i'..], now));
  }

  lemma Rejoined(a: seq<int>, k: int, b: seq<int>)
    ensures a + [k] + b == a + ([k] + b)
  {
  }

  lemma {:induction false} PassEnds(st: Tasker, now: Time, i: nat, at: Option<int>, slices: seq<Slice>)
    requires PassAt(st.waiters, i, at, now) && (i < |st.waiters| ==> !Before(st.waiters[i].ttd, now))
    ensures TimeoutPass(st, now, at, slices) == Outcome(st, false, false)
    ensures TimedOut(st.log) + LateKeys(st.waiters[i..], now) == TimedOut(st.log) && NoLateWaiter(st.waiters, now)
  {
    PassUnfolds(st, now, i, at, slices);
    PassDone(st.waiters, i, at, now);
  }

  lemma {:induction false} PassFrom(st: Tasker, now: Time, i: nat, at: Option<int>, slices: seq<Slice>)
    requires PassAt(st.waiters, i, at, now) && NoneLate(slices, now)
    ensures var o := TimeoutPass(st, now, at, slices);
            && !o.hung && NoLateWaiter(o.st.waiters, now)
            && TimedOut(o.st.log) == TimedOut(st.log) + LateKeys(st.waiters[i..], now)
    decreases |slices|, |st.waiters|
  {
    PassInRange(st.waiters, i, at, now);
    hide TimeoutPass, NoneLate, LateKeys, TimedOut, NoLateWaiter, PassAt, IteratorAt;
    if i < |st.waiters| && Before(st.waiters[i].ttd, now) {
      var next, i' := PassGoesOn(st, now, i, at, slices);
      PassFrom(next, now, i', IteratorAt(st.waiters, i + 1), Tail(slices));
    } else {
      PassEnds(st, now, i, at, slices);
    }
  }

  lemma PassInRange(ws: seq<Waiter>, i: nat, at: Option<int>, now: Time)
    requires PassAt(ws, i, at, now)
    ensures i <= |ws|
  {
  }

  /** With nothing to run and nothing to reap, and a clock that does not go back: schedule comes to an end exactly
      when every waiter has a deadline. Then it has woken all waiters that were late, each once and in the order
      of their deadlines, and no other; and none that waits is late. */
  lemma {:induction false} PassWakesTheLate(st: Tasker, now: Time, slices: seq<Slice>)
    requires Indexed(st.waiters) && st.runQueue == [] && st.zombies == [] && NoneLate(slices, now)
    ensures var o := Schedule(st, now, slices);
            && (!o.hung <==> forall w :: w in st.waiters ==> w.ttd.sec != 0)
            && (!o.hung ==>
                  && NoLateWaiter(o.st.waiters, now)
                  && TimedOut(o.st.log) == TimedOut(st.log) + LateKeys(st.waiters, now))
  {
    hide RunSlice, TimeoutPass;
    var started := st.(log := st.log + [Scheduled(now)]);
    TimedOutSnoc(st.log, Scheduled(now));
    if st.waiters == [] {
    } else if st.waiters[0].ttd.sec == 0 {
      HangsAtOnce(started, now, slices);
      assert st.waiters[0] in st.waiters;
    } else {
      assert st.waiters[0..] == st.waiters;
      PassFrom(started, now, 0, IteratorAt(st.waiters, 0), slices);
    }
  }

  lemma {:induction false} HangsAtOnce(st: Tasker, now: Time, slices: seq<Slice>)
    requires st.waiters != [] && st.waiters[0].ttd.sec == 0
    ensures TimeoutPass(st, now, IteratorAt(st.waiters, 0), slices).hung
  {
    assert Find(st.waiters, st.waiters[0].key) == 0;
  }

  /** LateKeys are all the late ones, since the waiters are sorted. */
  lemma {:induction false} LateKeysAreTheLate(ws: seq<Waiter>, now: Time)
    requires Indexed(ws) && forall w :: w in ws ==> w.ttd.sec != 0
    ensures var n := |LateKeys(ws, now)|;
            n <= |ws| && forall i :: 0 <= i < |ws| ==>
              (i < n <==> Expired(ws[i].ttd, now)) && (i < n ==> LateKeys(ws, now)[i] == ws[i].key)
  {
    if ws != [] && Before(ws[0].ttd, now) {
      LateKeysAreTheLate(ws[1..], now);
    }
  }

  /** Threads that wait with a clock that is at or past the scheduler's are not late. */
  lemma ClockGoesOn(slices: seq<Slice>, now: Time)
    requires forall i, j :: 0 <= i < |slices| && 0 <= j < |slices[i]| && slices[i][j].WaitEvent? ==>
               !Before(slices[i][j].now, now)
    ensures NoneLate(slices, now)
  {
    forall i, j | 0 <= i < |slices| && 0 <= j < |slices[i]| ensures NotLate(slices[i][j], now) {
      if slices[i][j].WaitEvent? {
        DeadlineIsLater(slices[i][j].timeoutMsec, slices[i][j].now, now);
      }
    }
  }
}
