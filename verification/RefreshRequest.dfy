/** The refresher itself: one object, its flight, and the coroutines that are
    still suspended at their race.  A coroutine's life is cut at its `await`:
    `ResumeRun` is the code from the race to the handler, `ContinueRun` the code
    from the handler to the next race or to the end. */
module RefreshRequest {
  import opened Wrappers
  import opened RefreshProtocol

  class RefreshRequest<T> {
    var clock: nat
    var flight: Option<nat>
    var runs: map<nat, Run<T>>
    ghost var calls: set<Call>
    ghost var loads: set<Load>
    ghost var cancelled: set<nat>
    ghost var deliveries: seq<Delivery<T>>

    ghost function Model(): Request<T>
      reads this
    {
      Request(clock, flight, runs, calls, loads, cancelled, deliveries)
    }

    ghost predicate Valid()
      reads this
    {
      Wf(Model())
    }

    constructor ()
      ensures Model() == Init()
    {
      clock, flight, runs := 0, None, map[];
      calls, loads, cancelled, deliveries := {}, {}, {}, [];
    }

    method Refresh() returns (joined: nat)
      requires Valid()
      modifies this
      ensures Model() == Step(old(Model()), RefreshCall)
      ensures flight == Some(joined)
    {
      if flight.Some? {
        joined := flight.value;
        runs := runs[joined := runs[joined].(pending := true)];
      } else {
        joined := clock;
        flight := Some(joined);
        StartLoad(joined);
      }
      calls := calls + {Call(clock, joined)};
      clock := clock + 1;
    }

    /** The head of the loop: clear the pending flag, take a new controller, load. */
    method StartLoad(f: nat)
      modifies this`runs, this`loads
      ensures runs == old(runs)[f := Run(false, false, clock, None)]
      ensures loads == old(loads) + {Load(clock, f)}
    {
      runs := runs[f := Run(false, false, clock, None)];
      loads := loads + {Load(clock, f)};
    }

    method Cancel()
      requires Valid()
      modifies this
      ensures Model() == Step(old(Model()), CancelCall)
    {
      var cancelling := flight;
      flight := None;
      if cancelling.Some? {
        var run := runs[cancelling.value];
        runs := runs[cancelling.value := Aborted(run)];
        cancelled := cancelled + {cancelling.value};
      }
      clock := clock + 1;
    }

    method LoadSettles(f: nat, load: nat, outcome: Outcome<T>)
      requires Valid()
      modifies this
      ensures Model() == Step(old(Model()), LoadSettled(f, load, outcome))
    {
      if f in runs && runs[f].settled.None? && runs[f].load == load {
        runs := runs[f := runs[f].(settled := Some(outcome))];
      }
      clock := clock + 1;
    }

    method TimeoutFires(f: nat)
      requires Valid()
      modifies this
      ensures Model() == Step(old(Model()), TimedOut(f))
    {
      if f in runs && runs[f].settled.None? {
        runs := runs[f := runs[f].(settled := Some(Rejected(TIMEOUT_ERROR)), aborted := true)];
      }
      clock := clock + 1;
    }

    method ResumeRun(f: nat) returns (delivered: Option<Outcome<T>>)
      requires Valid() && Settled(Model(), f)
      modifies this`deliveries
      ensures delivered == Delivered(old(Model()), f)
      ensures Model() == Record(old(Model()), f)
    {
      var run := runs[f];
      delivered := None;
      if run.settled.value.Value? {
        if flight == Some(f) && !run.aborted { delivered := run.settled; }
      } else {
        if flight == Some(f) { delivered := run.settled; }
      }
      if delivered.Some? {
        deliveries := deliveries + [Delivery(run.load, clock, delivered.value)];
      }
    }

    method ContinueRun(f: nat)
      requires Valid() && f in runs
      modifies this
      ensures Model() == Tick(Continue(old(Model()), f))
    {
      if flight == Some(f) && runs[f].pending {
        StartLoad(f);
      } else {
        if flight == Some(f) { flight := None; }
        runs := runs - {f};
      }
      clock := clock + 1;
    }
  }

  /** A whole resumption in which the handler cancels when `cancels` says so. */
  method ResumeWith<T>(request: RefreshRequest<T>, f: nat, cancels: bool) returns (delivered: Option<Outcome<T>>)
    requires request.Valid() && Settled(request.Model(), f)
    modifies request
    ensures delivered == Delivered(old(request.Model()), f)
    ensures request.Model() == Step(old(request.Model()), RunResumed(f, cancels))
  {
    delivered := request.ResumeRun(f);
    if cancels && delivered.Some? { request.Cancel(); }
    request.ContinueRun(f);
  }
}
