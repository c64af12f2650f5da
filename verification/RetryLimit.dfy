/** How many reads the timer starts after a failure, in whatever state the failure leaves
    the resource: also with a caller of an earlier read still to wake. */
module RetryLimit {
  import opened Wrappers
  import RP = RefreshProtocol
  import opened ResourceProtocol

  predicate Failing<T>(r: Resource<T>, max: nat) {
    r.maxRetries == Some(max) && r.view.failure.Some? && 1 <= r.failures
  }

  /** No call from outside, and no success. */
  ghost predicate Undisturbed<T>(r: Resource<T>, es: seq<Event<T>>)
    requires Wf(r)
  {
    (forall e :: e in es ==> Internal(e)) && |RunFrom(r, es).writes| == |r.writes|
  }

  /** The loads the live flight is still good for. */
  function Loads<T>(r: Resource<T>): nat {
    if r.request.flight.None? || r.request.flight.value !in r.request.runs then 0
    else if r.request.runs[r.request.flight.value].pending then 2 else 1
  }

  predicate Joined<T>(r: Resource<T>) {
    r.request.flight.Some? ==>
      forall w :: w in r.waiters && Current(r, w) ==> r.waiters[w].flight == r.request.flight.value
  }

  /** After `c` reads of the timer: as many failures have come or will come, and one more,
      and no caller of an earlier read is left to wake beside a live one. */
  predicate Counted<T>(r: Resource<T>, max: nat, c: nat) {
    && Failing(r, max) && c <= max
    && (c == 0 || r.view.unauthorized
        || (c + 1 <= r.failures + Loads(r) && Joined(r) && (r.request.flight.Some? ==> r.timer.None?)))
  }

  lemma IdleTimer<T>(r: Resource<T>)
    requires Inv(r) && r.active && r.request.flight.None? && forall w :: Current(r, w) ==> !Ready(r, w)
    ensures r.timer == NextDelay(r)
  {
    assert forall w :: !Current(r, w);
  }

  /** What a timer's read changes: it starts a flight or asks the live one for another load. */
  ghost predicate ReadBy<T>(r: Resource<T>, r': Resource<T>) {
    && Failing(r', r.maxRetries.GetOr(0)) && r'.maxRetries == r.maxRetries && r'.failures == r.failures
    && r'.timer.None? && r'.generation == r.generation && r'.request.flight.Some?
    && Loads(r') == (if r.request.flight.Some? then 2 else 1)
    && (r.request.flight.Some? ==> r'.request.flight == r.request.flight)
    && r'.waiters == r.waiters[r.request.clock := Waiter(r'.request.flight.value, r.generation)]
  }

  lemma TimerReadsBy<T>(r: Resource<T>, max: nat)
    requires Inv(r) && Failing(r, max) && TimerDue(r)
    ensures ReadBy(r, Step(r, TimerEvent))
  {}

  lemma ReadIsCounted<T>(r: Resource<T>, r': Resource<T>, max: nat, c: nat)
    requires Inv(r) && Counted(r, max, c) && TimerDue(r) && 1 <= max && ReadBy(r, r')
    ensures Counted(r', max, c + 1)
  {
    assert forall w :: Current(r, w) ==> !Ready(r, w);
    if r.request.flight.None? {
      IdleTimer(r);
      assert forall w :: !Current(r, w);
    }
    assert forall w :: Current(r', w) ==> w == r.request.clock || Current(r, w);
  }

  lemma RunCounts<T>(r: Resource<T>, f: nat, max: nat, c: nat)
    requires Inv(r) && Counted(r, max, c) && RP.Settled(r.request, f) && ResumeRun(r, f).writes == r.writes
    ensures Counted(ResumeRun(r, f), max, c)
  {
    RP.ResumeShape(r.request, f, Pauses(r, f));
    var r' := ResumeRun(r, f);
    if r.request.flight == Some(f) {
      assert RP.Delivered(r.request, f).Some?;
      assert RP.Delivered(r.request, f).value.Value? ==> |r'.writes| == |r.writes| + 1;
      assert r'.failures == r.failures + 1;
    }
    assert !r'.view.unauthorized ==> forall w :: Current(r', w) <==> Current(r, w);
  }

  lemma WakeCounts<T>(r: Resource<T>, w: nat, max: nat, c: nat)
    requires Inv(r) && Counted(r, max, c) && Ready(r, w)
    ensures Counted(WakeWaiter(r, w), max, c)
  {
    var r' := WakeWaiter(r, w);
    assert forall v :: Current(r', v) ==> Current(r, v) && r'.waiters[v] == r.waiters[v];
  }

  lemma SettleCounts<T>(r: Resource<T>, e: Event<T>, max: nat, c: nat)
    requires Inv(r) && Counted(r, max, c) && (e.LoadEvent? || e.TimeoutEvent?)
    ensures Counted(Step(r, e), max, c)
  {
    assert forall v :: Current(Step(r, e), v) <==> Current(r, v);
  }

  lemma StepCounts<T>(r: Resource<T>, e: Event<T>, max: nat, c: nat)
    requires Inv(r) && Counted(r, max, c) && 1 <= max && Internal(e) && Step(r, e).writes == r.writes
    ensures Counted(Step(r, e), max, c + if e == TimerEvent && TimerDue(r) then 1 else 0)
  {
    if e.TimerEvent? {
      if TimerDue(r) {
        TimerReadsBy(r, max);
        ReadIsCounted(r, Step(r, e), max, c);
      }
    } else if e.RunEvent? {
      if RP.Settled(r.request, e.flight) { RunCounts(r, e.flight, max, c); }
    } else if e.WaiterEvent? {
      if Ready(r, e.waiter) { WakeCounts(r, e.waiter, max, c); }
    } else {
      SettleCounts(r, e, max, c);
    }
  }

  lemma {:induction false} RunStaysCounted<T>(r: Resource<T>, es: seq<Event<T>>, max: nat)
    requires Inv(r) && Failing(r, max) && 1 <= max && Undisturbed(r, es)
    ensures Counted(RunFrom(r, es), max, TimerReads(r, es)) && RunFrom(r, es).writes == r.writes
  {
    if es != [] {
      var front, e := es[..|es| - 1], es[|es| - 1];
      var before := RunFrom(r, front);
      RunKeepsInv(r, front);
      RunWritesOnlyGrow(r, front);
      WritesOnlyGrow(before, e);
      RunStaysCounted(r, front, max);
      StepCounts(before, e, max, TimerReads(r, front));
    }
  }

  // ----- No retries allowed ----------------------------------------------------------------

  /** A timer left beside a live read that will go on: the read is still out, or it has
      failed and loops for a pending call; and no caller is about to wake and clear it. */
  ghost predicate Slips<T>(r: Resource<T>) {
    && r.timer.Some? && r.request.flight.Some? && r.request.flight.value in r.request.runs
    && (forall w :: Current(r, w) ==> !Ready(r, w))
    && var run := r.request.runs[r.request.flight.value];
       run.settled.Some? ==> run.settled.value.Rejected? && !run.settled.value.failure.Unauthorized? && run.pending
  }

  lemma SlipsToFire<T>(r: Resource<T>)
    requires Inv(r) && Failing(r, 0) && TimerDue(r)
    ensures Slips(r)
  {
    assert forall w :: Current(r, w) ==> !Ready(r, w);
    if r.request.flight.None? {
      IdleTimer(r);
      assert false;
    }
    assert !RP.Settled(r.request, r.request.flight.value);
  }

  lemma RunNeverSlips<T>(r: Resource<T>, f: nat)
    requires Inv(r) && Failing(r, 0) && !Slips(r) && RP.Settled(r.request, f) && ResumeRun(r, f).writes == r.writes
    ensures Failing(ResumeRun(r, f), 0) && !Slips(ResumeRun(r, f))
  {
    RP.ResumeShape(r.request, f, Pauses(r, f));
    var r' := ResumeRun(r, f);
    if r.request.flight == Some(f) {
      assert RP.Delivered(r.request, f).Some?;
      assert RP.Delivered(r.request, f).value.Value? ==> |r'.writes| == |r.writes| + 1;
    }
    if r'.request.flight.Some? {
      forall w | Current(r, w) && Ready(r, w) ensures Current(r', w) && Ready(r', w) {}
    }
  }

  lemma StepNeverSlips<T>(r: Resource<T>, e: Event<T>)
    requires Inv(r) && Failing(r, 0) && !Slips(r) && Internal(e) && Step(r, e).writes == r.writes
    ensures Failing(Step(r, e), 0) && !Slips(Step(r, e)) && !TimerDue(r)
  {
    if TimerDue(r) {
      SlipsToFire(r);
    } else if e.RunEvent? {
      if RP.Settled(r.request, e.flight) { RunNeverSlips(r, e.flight); }
    } else if e.WaiterEvent? {
      if Ready(r, e.waiter) && !Current(r, e.waiter) {
        var r' := Step(r, e);
        forall w | Current(r, w) && Ready(r, w) ensures Current(r', w) && Ready(r', w) {}
      }
    } else if !e.TimerEvent? {
      var r' := Step(r, e);
      forall w | Current(r, w) && Ready(r, w) ensures Current(r', w) && Ready(r', w) {}
    }
  }

  lemma {:induction false} RunNeverFires<T>(r: Resource<T>, es: seq<Event<T>>)
    requires Inv(r) && Failing(r, 0) && !Slips(r) && Undisturbed(r, es)
    ensures TimerReads(r, es) == 0 && RunFrom(r, es).writes == r.writes
    ensures Failing(RunFrom(r, es), 0) && !Slips(RunFrom(r, es))
  {
    if es != [] {
      var front, e := es[..|es| - 1], es[|es| - 1];
      var before := RunFrom(r, front);
      RunKeepsInv(r, front);
      RunWritesOnlyGrow(r, front);
      WritesOnlyGrow(before, e);
      RunNeverFires(r, front);
      StepNeverSlips(before, e);
    }
  }

  lemma {:induction false} RunCons<T>(r: Resource<T>, e: Event<T>, es: seq<Event<T>>)
    requires Wf(r)
    ensures RunFrom(r, [e] + es) == RunFrom(Step(r, e), es)
    ensures TimerReads(r, [e] + es) >= TimerReads(Step(r, e), es)
  {
    var all := [e] + es;
    if es == [] {
      assert all[..0] == [] && all == [e];
    } else {
      assert all[..|all| - 1] == [e] + es[..|es| - 1];
      RunCons(r, e, es[..|es| - 1]);
    }
  }

  lemma Fewer<K, V>(m: map<K, V>, k: K)
    requires k in m
    ensures |m - {k}| < |m|
  {
    assert (m - {k}).Keys == m.Keys - {k};
  }

  /** How much is queued before the timer's turn. */
  ghost function Queued<T>(r: Resource<T>): nat {
    |r.request.runs| + |r.waiters| +
    if r.request.flight.Some? && RP.Settled(r.request, r.request.flight.value) then 1 else 0
  }

  /** The live read's failure, with its follow-up. */
  lemma ServeLive<T>(r: Resource<T>)
    requires Inv(r) && Slips(r) && RP.Settled(r.request, r.request.flight.value)
    ensures var r' := Step(r, RunEvent(r.request.flight.value));
      Slips(r') && r'.writes == r.writes && Queued(r') < Queued(r)
  {
    var f := r.request.flight.value;
    RP.ResumeShape(r.request, f, Pauses(r, f));
    var r' := Step(r, RunEvent(f));
    assert r'.request.runs.Keys == r.request.runs.Keys;
    assert forall w :: Current(r', w) <==> Current(r, w);
  }

  /** What the end of a cancelled read changes. */
  lemma ZombieEnds<T>(r: Resource<T>, g: nat)
    requires Inv(r) && RP.Settled(r.request, g) && r.request.flight != Some(g)
    ensures var r' := Step(r, RunEvent(g));
      && r'.request.runs == r.request.runs - {g} && r'.request.flight == r.request.flight
      && r'.waiters == r.waiters && r'.generation == r.generation && r'.timer == r.timer && r'.writes == r.writes
  {
    RP.ResumeShape(r.request, g, Pauses(r, g));
    assert Step(r, RunEvent(g)).request.runs == r.request.runs - {g};
  }

  /** A cancelled read's end. */
  lemma ServeZombie<T>(r: Resource<T>, g: nat)
    requires Inv(r) && Slips(r) && RP.Settled(r.request, g) && r.request.flight != Some(g)
    ensures var r' := Step(r, RunEvent(g));
      Slips(r') && r'.writes == r.writes && Queued(r') < Queued(r)
  {
    ZombieEnds(r, g);
    var r' := Step(r, RunEvent(g));
    Fewer(r.request.runs, g);
    assert forall w :: Current(r', w) <==> Current(r, w);
  }

  /** A caller of an old generation. */
  lemma ServeWaiter<T>(r: Resource<T>, w: nat)
    requires Inv(r) && Slips(r) && Ready(r, w)
    ensures var r' := Step(r, WaiterEvent(w));
      Slips(r') && r'.writes == r.writes && Queued(r') < Queued(r)
  {
    var r' := Step(r, WaiterEvent(w));
    assert !Current(r, w);
    Fewer(r.waiters, w);
    assert forall v :: Current(r', v) ==> Current(r, v) && r'.waiters[v] == r.waiters[v];
  }

  /** Serving what is queued first, such a timer does fire. */
  lemma {:induction false} SlipFires<T>(r: Resource<T>) returns (es: seq<Event<T>>)
    requires Inv(r) && Slips(r)
    ensures Undisturbed(r, es) && 1 <= TimerReads(r, es)
    decreases Queued(r)
  {
    var f := r.request.flight.value;
    var e := TimerEvent;
    if RP.Settled(r.request, f) {
      e := RunEvent(f);
      ServeLive(r);
    } else if g :| RP.Settled(r.request, g) {
      e := RunEvent(g);
      ServeZombie(r, g);
    } else if w :| Ready(r, w) {
      e := WaiterEvent(w);
      ServeWaiter(r, w);
    }
    if e.TimerEvent? {
      es := [e];
      assert TimerDue(r) && es[..0] == [];
    } else {
      StepKeepsInv(r, e);
      var rest := SlipFires(Step(r, e));
      es := [e] + rest;
      RunCons(r, e, rest);
    }
  }

  // ----- The budget ----------------------------------------------------------------------

  /** From a failure on, undisturbed and without a success, timers start at most maxRetries
      further reads, whoever is still to wake; but with no retries allowed, a timer may be
      left over beside a read that goes on, and fire. */
  lemma {:induction false} FirstFailureBudget<T>(r: Resource<T>, es: seq<Event<T>>, max: nat)
    requires Inv(r) && Failing(r, max) && Undisturbed(r, es)
    ensures 0 < max || !Slips(r) ==> TimerReads(r, es) <= max
  {
    if 0 < max {
      RunStaysCounted(r, es, max);
    } else if !Slips(r) {
      RunNeverFires(r, es);
    }
  }

  /** That exception is exact. */
  lemma {:induction false} FirstFailureBudgetExactly<T(!new)>(r: Resource<T>, max: nat)
    requires Inv(r) && Failing(r, max)
    ensures (forall es :: Undisturbed(r, es) ==> TimerReads(r, es) <= max) <==> 0 < max || !Slips(r)
  {
    forall es | Undisturbed(r, es) && (0 < max || !Slips(r)) ensures TimerReads(r, es) <= max {
      FirstFailureBudget(r, es, max);
    }
    if max == 0 && Slips(r) {
      var es := SlipFires(r);
      assert Undisturbed(r, es) && !(TimerReads(r, es) <= max);
    }
  }

  // ----- The exception is real --------------------------------------------------------------

  /** A poll that allows no retries is answered; before its caller wakes, two refreshes
      start a read and ask for another; the caller wakes and sets the timer; the read fails. */
  function LeftOver<T>(v: T, e: RP.Failure): seq<Event<T>> {
    [SetIntervalEvent(Some(1000)), ResumeEvent, LoadEvent(1, 1, RP.Value(v, 1)), RunEvent(1),
     SetRetryEvent(true, Some(0)), RefreshEvent, RefreshEvent, WaiterEvent(1),
     LoadEvent(4, 4, RP.Rejected(e)), RunEvent(4)]
  }

  /** A second read, without retries; its caller and the first read's still wait. */
  ghost predicate SecondRead<T>(r: Resource<T>) {
    && r.active && !r.view.unauthorized && r.interval == Some(1000) && r.view.failure.None?
    && r.maxRetries == Some(0) && r.failures == 0
    && r.generation == 1 && r.waiters == map[1 := Waiter(1, 1), 4 := Waiter(4, 1)]
    && r.request.clock == 5 && r.request.flight == Some(4)
    && r.request.runs == map[4 := RP.Run(false, false, 4, None)]
  }

  lemma NoMoreRetries<T>(r: Resource<T>)
    requires LoadEnded(r)
    ensures SecondRead(Step(Step(r, SetRetryEvent(true, Some(0))), RefreshEvent))
  {
    var limited := Step(r, SetRetryEvent(true, Some(0)));
    assert limited.maxRetries == Some(0) && limited.request == r.request && limited.waiters == r.waiters;
  }

  /** A follow-up is pending, and a timer is set beside the read. */
  ghost predicate TimerBeside<T>(r: Resource<T>) {
    && r.active && r.timer == Some(1000) && r.maxRetries == Some(0) && r.failures == 0
    && r.waiters == map[4 := Waiter(4, 1), 5 := Waiter(4, 1)]
    && r.request.clock == 6 && r.request.flight == Some(4)
    && r.request.runs == map[4 := RP.Run(true, false, 4, None)]
  }

  lemma WokenBetween<T>(r: Resource<T>)
    requires SecondRead(r)
    ensures TimerBeside(Step(Step(r, RefreshEvent), WaiterEvent(1)))
  {
    var again := Step(r, RefreshEvent);
    assert again.waiters == map[1 := Waiter(1, 1), 4 := Waiter(4, 1), 5 := Waiter(4, 1)];
    assert Ready(again, 1) && Current(again, 1);
    assert again.waiters - {1} == map[4 := Waiter(4, 1), 5 := Waiter(4, 1)];
  }

  lemma FailsAndLoops<T>(r: Resource<T>, e: RP.Failure)
    requires TimerBeside(r) && !e.Unauthorized?
    ensures var r' := Step(Step(r, LoadEvent(4, 4, RP.Rejected(e))), RunEvent(4));
      Failing(r', 0) && r'.failures == 1 && Slips(r')
  {
    var failed := Step(r, LoadEvent(4, 4, RP.Rejected(e)));
    assert failed.request.runs == map[4 := RP.Run(true, false, 4, Some(RP.Rejected(e)))];
    RP.ResumeShape(failed.request, 4, Pauses(failed, 4));
    var r' := Step(failed, RunEvent(4));
    assert forall w :: Current(r', w) ==> r'.waiters[w].flight == 4;
  }

  lemma LeftOverSlips<T>(v: T, e: RP.Failure)
    requires !e.Unauthorized?
    ensures var r := After(v, LeftOver(v, e)); Failing(r, 0) && r.failures == 1 && Slips(r)
  {
    var es := LeftOver(v, e);
    LoadOver(v, es);
    TwoSteps(v, es, 4);
    NoMoreRetries(After(v, es[..4]));
    TwoSteps(v, es, 6);
    WokenBetween(After(v, es[..6]));
    TwoSteps(v, es, 8);
    FailsAndLoops(After(v, es[..8]), e);
    assert es[..10] == es;
  }
}
