/** The polling resource as the object it is: fields reassigned step by step, a
    refresher it owns, and the continuations of refresh() still waiting. */
module AdminResource {
  import opened Wrappers
  import Backoff
  import RP = RefreshProtocol
  import RR = RefreshRequest
  import P = ResourceProtocol

  class AdminResource<T> {
    const request: RR.RefreshRequest<T>
    var state: P.View<T>
    var timer: Option<nat>
    var active: bool
    var generation: nat
    var reading: bool
    var failures: nat
    var interval: Option<nat>
    var retryOnError: bool
    var maxRetries: Option<nat>
    var waiters: map<nat, P.Waiter>
    ghost var writes: seq<P.Write<T>>
    ghost const initial: T
    ghost var run: seq<P.Event<T>>

    ghost function Model(): P.Resource<T>
      reads this, request
    {
      P.Resource(request.Model(), state, timer, active, generation, reading, failures,
                 interval, retryOnError, maxRetries, waiters, writes)
    }

    /** The object is where the protocol is after the events it has seen. */
    ghost predicate Valid()
      reads this, request
    {
      Model() == P.After(initial, run)
    }

    constructor (initialData: T)
      ensures Valid() && fresh(request)
      ensures run == [] && initial == initialData
    {
      request := new RR.RefreshRequest<T>();
      state := P.View(initialData, false, true, false, "", None, false);
      timer, active, generation, reading, failures := None, false, 0, false, 0;
      interval, retryOnError, maxRetries := None, true, None;
      waiters, writes := map[], [];
      initial, run := initialData, [];
    }

    /** Notes the event about to be handled; the handler then catches up with it. */
    ghost method Observe(e: P.Event<T>)
      requires Valid()
      modifies this`run
      ensures run == old(run) + [e]
      ensures P.After(initial, run) == P.Step(Model(), e)
    {
      run := run + [e];
      assert run[..|run| - 1] == old(run);
    }

    method CancelReads()
      requires P.Wf(Model())
      modifies this, request
      ensures Model() == P.CancelAll(old(Model())) && run == old(run)
    {
      generation := generation + 1;
      timer := None;
      request.Cancel();
      reading := false;
      if state.refreshing { state := state.(refreshing := false); }
    }

    method Schedule()
      modifies this`timer
      ensures Model() == P.Schedule(old(Model()))
    {
      timer := None;
      if !active || reading || state.unauthorized { return; }
      var delay := interval;
      if state.failure.Some? {
        if !retryOnError || (maxRetries.Some? && failures > maxRetries.value) || !P.Retryable(state.failure.value) {
          return;
        }
        var base := if interval.Some? then interval.value else P.DEFAULT_RETRY_BASE;
        delay := Some(Min(P.MAX_RETRY_DELAY, base * Backoff.Pow2(Min(failures, P.MAX_DOUBLINGS))));
      }
      if delay.Some? { timer := delay; }
    }

    method StartRefresh()
      requires P.Wf(Model())
      modifies this, request
      ensures Model() == P.StartRefresh(old(Model())) && run == old(run)
    {
      if !active || state.unauthorized { return; }
      timer := None;
      reading := true;
      state := state.(loading := !state.ready, refreshing := state.ready);
      var called := request.clock;
      var flight := request.Refresh();
      waiters := waiters[called := P.Waiter(flight, generation)];
    }

    // ----- Calls from outside ----------------------------------------------

    method Resume()
      requires Valid()
      modifies this, request
      ensures Valid() && run == old(run) + [P.ResumeEvent]
    {
      Observe(P.ResumeEvent);
      if state.unauthorized { return; }
      CancelReads();
      active := true;
      StartRefresh();
    }

    method Pause()
      requires Valid()
      modifies this, request
      ensures Valid() && run == old(run) + [P.PauseEvent]
    {
      Observe(P.PauseEvent);
      active := false;
      CancelReads();
    }

    method Refresh()
      requires Valid()
      modifies this, request
      ensures Valid() && run == old(run) + [P.RefreshEvent]
    {
      Observe(P.RefreshEvent);
      StartRefresh();
    }

    method Invalidate()
      requires Valid()
      modifies this, request
      ensures Valid() && run == old(run) + [P.InvalidateEvent]
    {
      Observe(P.InvalidateEvent);
      CancelReads();
      StartRefresh();
    }

    method SetData(value: T)
      requires Valid()
      modifies this, request
      ensures Valid() && run == old(run) + [P.SetDataEvent(value)]
    {
      Observe(P.SetDataEvent(value));
      ghost var at := request.clock;
      CancelReads();
      state := state.(data := value);
      writes := writes + [P.Write(true, at, at, at, value)];
      Schedule();
    }

    method SetInterval(next: Option<nat>)
      requires Valid()
      modifies this
      ensures Valid() && run == old(run) + [P.SetIntervalEvent(next)]
    {
      Observe(P.SetIntervalEvent(next));
      if interval == next { return; }
      interval := next;
      Schedule();
    }

    method SetRetryOnError(enabled: bool, max: Option<nat>)
      requires Valid()
      modifies this
      ensures Valid() && run == old(run) + [P.SetRetryEvent(enabled, max)]
    {
      Observe(P.SetRetryEvent(enabled, max));
      if retryOnError == enabled && maxRetries == max { return; }
      retryOnError, maxRetries := enabled, max;
      Schedule();
    }

    // ----- Continuations and timers ----------------------------------------

    method TimerFires()
      requires Valid() && P.TimerDue(Model())
      modifies this, request
      ensures Valid() && run == old(run) + [P.TimerEvent]
    {
      Observe(P.TimerEvent);
      timer := None;
      StartRefresh();
    }

    method LoadSettles(flight: nat, load: nat, outcome: RP.Outcome<T>)
      requires Valid()
      modifies this`run, request
      ensures Valid() && run == old(run) + [P.LoadEvent(flight, load, outcome)]
    {
      Observe(P.LoadEvent(flight, load, outcome));
      request.LoadSettles(flight, load, outcome);
    }

    method LoadTimesOut(flight: nat)
      requires Valid()
      modifies this`run, request
      ensures Valid() && run == old(run) + [P.TimeoutEvent(flight)]
    {
      Observe(P.TimeoutEvent(flight));
      request.TimeoutFires(flight);
    }

    method RunResumes(flight: nat)
      requires Valid() && RP.Settled(request.Model(), flight)
      modifies this, request
      ensures Valid() && run == old(run) + [P.RunEvent(flight)]
    {
      Observe(P.RunEvent(flight));
      ghost var start := request.runs[flight].load;
      var delivered := request.ResumeRun(flight);
      if delivered.Some? {
        if delivered.value.Value? {
          OnValue(delivered.value.value, start, delivered.value.readAt);
        } else {
          OnError(delivered.value.failure);
        }
      }
      request.ContinueRun(flight);
    }

    method OnValue(value: T, ghost start: nat, ghost readAt: nat)
      modifies this
      ensures Model() == P.OnValue(old(Model()), value, start, readAt) && run == old(run)
    {
      failures := 0;
      state := state.(data := value, ready := true, loading := false, error := "", failure := None);
      writes := writes + [P.Write(false, start, request.clock, readAt, value)];
    }

    method OnError(reason: RP.Failure)
      requires P.Wf(Model())
      modifies this, request
      ensures Model() == P.OnError(old(Model()), reason).(request :=
        if reason.Unauthorized? then RP.Step(old(request.Model()), RP.CancelCall) else old(request.Model()))
      ensures run == old(run)
    {
      failures := failures + 1;
      if reason.Unauthorized? {
        active := false;
        CancelReads();
      }
      state := state.(loading := false, error := reason.message, failure := Some(reason),
                      unauthorized := reason.Unauthorized?);
    }

    method WaiterWakes(waiter: nat)
      requires Valid() && P.Ready(Model(), waiter)
      modifies this
      ensures Valid() && run == old(run) + [P.WaiterEvent(waiter)]
    {
      Observe(P.WaiterEvent(waiter));
      Wake(waiter);
    }

    /** What refresh() does after its `await`. */
    method Wake(waiter: nat)
      requires P.Ready(Model(), waiter)
      modifies this`waiters, this`reading, this`state, this`timer
      ensures Model() == P.WakeWaiter(old(Model()), waiter)
    {
      var called := waiters[waiter].generation;
      waiters := waiters - {waiter};
      if called != generation { return; }
      reading := false;
      state := state.(refreshing := false);
      Schedule();
    }
  }
}
