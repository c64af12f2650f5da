/** What the polling resource's calls do, in every state it can be in. */
module ResourceCalls {
  import opened Wrappers
  import RP = RefreshProtocol
  import opened ResourceProtocol

  /** A read is out that began with this very call, and its caller waits for it. */
  ghost predicate ReadsAfresh<T>(r: Resource<T>, r': Resource<T>) {
    && r'.active && r'.reading && r'.timer.None?
    && r'.request.flight.Some? && RP.Awaiting(r'.request, r'.request.flight.value)
    && (exists l :: l in r'.request.loads - r.request.loads
          && l.flight == r'.request.flight.value && r.request.clock <= l.at)
    && (exists w :: w !in r.waiters && Current(r', w) && r'.waiters[w].flight == r'.request.flight.value)
    && r'.view.loading == !r.view.ready && r'.view.refreshing == r.view.ready
    && r'.view.data == r.view.data && r'.view.failure == r.view.failure
  }

  lemma FreshRead<T>(r: Resource<T>)
    requires Core(r) && r.active && r.request.flight.None?
    ensures ReadsAfresh(r, StartRefresh(r))
  {
    var r' := StartRefresh(r);
    var w := r.request.clock;
    assert w !in r.waiters && Current(r', w);
    assert RP.LoadsInv(r.request);
    assert RP.Load(w, w) in r'.request.loads - r.request.loads;
  }

  /** A refresh of an active resource starts a read if none is out, and otherwise joins the
      one that is, which will read again; it shows that it is loading or refreshing.  Of a
      paused or unauthorized one it does nothing. */
  lemma {:induction false} RefreshReads<T>(initial: T, es: seq<Event<T>>)
    ensures var r, r' := After(initial, es), After(initial, es + [RefreshEvent]);
      && (!r.active || r.view.unauthorized ==> r' == r)
      && (r.active && r.request.flight.None? ==> ReadsAfresh(r, r'))
      && (r.active && r.request.flight.Some? ==>
            && r'.reading && r'.timer.None? && r'.request.flight == r.request.flight
            && r'.request.runs[r.request.flight.value].pending
            && r'.view.loading == !r.view.ready && r'.view.refreshing == r.view.ready)
  {
    ReachableInv(initial, es);
    assert (es + [RefreshEvent])[..|es|] == es;
    var r := After(initial, es);
    if r.active && r.request.flight.None? { FreshRead(r); }
  }

  /** Resuming makes the resource active and reads at once, whatever was out before; only an
      unauthorized resource stays as it is. */
  lemma {:induction false} ResumeReads<T>(initial: T, es: seq<Event<T>>)
    ensures var r, r' := After(initial, es), After(initial, es + [ResumeEvent]);
      && (r.view.unauthorized ==> r' == r)
      && (!r.view.unauthorized ==> ReadsAfresh(Idle(r).(active := true), r'))
  {
    ReachableInv(initial, es);
    assert (es + [ResumeEvent])[..|es|] == es;
    var r := After(initial, es);
    if !r.view.unauthorized {
      CancelKeepsCore(r);
      CoreFrame(Idle(r), Idle(r).(active := true));
      FreshRead(Idle(r).(active := true));
    }
  }

  /** The resource with every read of its own let go. */
  function Idle<T>(r: Resource<T>): Resource<T>
    requires Wf(r)
  {
    CancelAll(r)
  }

  /** Pausing stops everything and keeps what is shown. */
  lemma {:induction false} PauseStops<T>(initial: T, es: seq<Event<T>>)
    ensures var r, r' := After(initial, es), After(initial, es + [PauseEvent]);
      && !r'.active && !r'.reading && r'.timer.None? && r'.request.flight.None? && (forall w :: !Current(r', w))
      && r'.view == r.view.(refreshing := false) && r'.request.loads == r.request.loads
      && (r.request.flight.Some? ==> r.request.flight.value in r'.request.cancelled)
  {
    ReachableInv(initial, es);
    assert (es + [PauseEvent])[..|es|] == es;
    CancelKeepsCore(After(initial, es));
    assert forall w :: Current(Pause(After(initial, es)), w) <==> Current(CancelAll(After(initial, es)), w);
  }

  lemma InvalidateLetsGo<T>(r: Resource<T>)
    requires Inv(r)
    ensures var q := Idle(r).request;
      && q.flight.None? && q.loads == r.request.loads
      && (r.request.flight.Some? ==> r.request.flight.value in q.cancelled && r.request.flight.value < q.clock)
  {
    CancelKeepsCore(r);
  }

  lemma FreshFlight<T>(r: Resource<T>)
    requires Core(r) && r.request.flight.None?
    ensures r.request.cancelled <= StartRefresh(r).request.cancelled
    ensures StartRefresh(r).request.flight.Some? ==> r.request.clock <= StartRefresh(r).request.flight.value
    ensures !r.active ==> StartRefresh(r) == r
  {}

  ghost predicate LetsGoAndReads<T>(r: Resource<T>, r': Resource<T>)
    requires Wf(r)
  {
    && (r.request.flight.Some? ==>
          r.request.flight.value in r'.request.cancelled && r'.request.flight != r.request.flight)
    && (r.active ==> ReadsAfresh(Idle(r), r'))
    && (!r.active ==> r'.request.flight.None? && r'.request.loads == r.request.loads)
  }

  lemma InvalidateReads<T>(r: Resource<T>)
    requires Inv(r)
    ensures LetsGoAndReads(r, StartRefresh(Idle(r)))
  {
    CancelKeepsCore(r);
    InvalidateLetsGo(r);
    FreshFlight(Idle(r));
    if r.active { FreshRead(Idle(r)); }
  }

  /** Invalidating lets the read that is out go and, if the resource is active, reads anew. */
  lemma {:induction false} InvalidateReadsAnew<T>(initial: T, es: seq<Event<T>>)
    ensures LetsGoAndReads(After(initial, es), After(initial, es + [InvalidateEvent]))
  {
    ReachableInv(initial, es);
    InvalidateIs(initial, es);
    InvalidateReads(After(initial, es));
  }

  lemma InvalidateIs<T>(initial: T, es: seq<Event<T>>)
    ensures After(initial, es + [InvalidateEvent]) == StartRefresh(Idle(After(initial, es)))
  {
    assert (es + [InvalidateEvent])[..|es|] == es;
  }

  /** Settings take hold, and leave the view and the reads alone. */
  lemma {:induction false} SettingsTakeHold<T>(
      initial: T, es: seq<Event<T>>, interval: Option<nat>, on: bool, max: Option<nat>)
    ensures var r, r' := After(initial, es), After(initial, es + [SetIntervalEvent(interval)]);
      r' == r.(interval := interval, timer := r'.timer)
    ensures var r, r' := After(initial, es), After(initial, es + [SetRetryEvent(on, max)]);
      r' == r.(retryOnError := on, maxRetries := max, timer := r'.timer)
  {
    assert (es + [SetIntervalEvent(interval)])[..|es|] == es;
    assert (es + [SetRetryEvent(on, max)])[..|es|] == es;
  }
}
