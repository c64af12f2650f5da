/** The polling resource as a transition system over the refresher's.

    Continuations of `await this.request.refresh()` are explicit waiters: each
    remembers the flight it joined and the generation it was called in.  A value
    passed to `SetDataEvent` is arbitrary, so functional updates are covered.
    Subscribers do not call back into the resource. */
module ResourceProtocol {
  import opened Wrappers
  import opened Backoff
  import opened RefreshProtocol

  const MAX_RETRY_DELAY: nat := 30000
  const DEFAULT_RETRY_BASE: nat := 1000
  const MAX_DOUBLINGS: nat := 5

  datatype View<T> = View(
    data: T,
    ready: bool,
    loading: bool,
    refreshing: bool,
    error: string,
    failure: Option<Failure>,
    unauthorized: bool)

  datatype Waiter = Waiter(flight: nat, generation: nat)

  /** A value shown: by a load that ran from `start` and saw the server of moment
      `readAt`, or by a local write. */
  datatype Write<T> = Write(local: bool, start: nat, at: nat, readAt: nat, value: T)

  /** `writes` is history. `maxRetries == None` is the source's Infinity. */
  datatype Resource<T> = Resource(
    request: Request<T>,
    view: View<T>,
    timer: Option<nat>,
    active: bool,
    generation: nat,
    reading: bool,
    failures: nat,
    interval: Option<nat>,
    retryOnError: bool,
    maxRetries: Option<nat>,
    waiters: map<nat, Waiter>,
    writes: seq<Write<T>>)

  function Create<T>(initial: T): Resource<T> {
    Resource(RefreshProtocol.Init(), View(initial, false, true, false, "", None, false),
             None, false, 0, false, 0, None, true, None, map[], [])
  }

  predicate Retryable(failure: Failure) {
    match failure
    case Unauthorized(_) => false
    case Api(status, _) => status >= 500 || status == 408 || status == 429
    case Other(_) => true
  }

  function RetryDelay(interval: Option<nat>, failures: nat): nat {
    Doubled(interval.GetOr(DEFAULT_RETRY_BASE), Min(failures, MAX_DOUBLINGS), MAX_RETRY_DELAY)
  }

  predicate Terminal<T>(r: Resource<T>) {
    r.view.failure.Some? &&
    (|| !r.retryOnError
     || (r.maxRetries.Some? && r.failures > r.maxRetries.value)
     || !Retryable(r.view.failure.value))
  }

  /** The delay the resource would wait before its next read, if it polls at all. */
  function NextDelay<T>(r: Resource<T>): Option<nat> {
    if Terminal(r) then None
    else if r.view.failure.Some? then Some(RetryDelay(r.interval, r.failures))
    else r.interval
  }

  predicate Wf<T>(r: Resource<T>) {
    RefreshProtocol.Wf(r.request)
  }

  function Schedule<T>(r: Resource<T>): Resource<T> {
    r.(timer := if !r.active || r.reading || r.view.unauthorized then None else NextDelay(r))
  }

  function CancelAll<T>(r: Resource<T>): Resource<T>
    requires Wf(r)
  {
    Detached(r).(request := RefreshProtocol.Step(r.request, CancelCall))
  }

  /** cancel() without its call into the refresher. */
  function Detached<T>(r: Resource<T>): Resource<T> {
    r.(generation := r.generation + 1, timer := None, reading := false,
       view := r.view.(refreshing := false))
  }

  function StartRefresh<T>(r: Resource<T>): Resource<T>
    requires Wf(r)
  {
    if !r.active || r.view.unauthorized then r
    else
      var request := RefreshProtocol.Step(r.request, RefreshCall);
      r.(timer := None, reading := true,
         view := r.view.(loading := !r.view.ready, refreshing := r.view.ready),
         request := request,
         waiters := r.waiters[r.request.clock := Waiter(request.flight.value, r.generation)])
  }

  function OnValue<T>(r: Resource<T>, data: T, start: nat, readAt: nat): Resource<T> {
    r.(failures := 0,
       view := r.view.(data := data, ready := true, loading := false, error := "", failure := None),
       writes := r.writes + [Write(false, start, r.request.clock, readAt, data)])
  }

  /** The error handler up to the refresher: an authorization failure pauses. */
  function OnError<T>(r: Resource<T>, failure: Failure): Resource<T> {
    var failed := r.(failures := r.failures + 1);
    var paused := if failure.Unauthorized? then Detached(failed.(active := false)) else failed;
    paused.(view := paused.view.(loading := false, error := failure.message, failure := Some(failure),
                                 unauthorized := failure.Unauthorized?))
  }

  function Handle<T>(r: Resource<T>, f: nat): Resource<T>
    requires Settled(r.request, f)
  {
    match Delivered(r.request, f)
    case None => r
    case Some(Value(v, readAt)) => OnValue(r, v, r.request.runs[f].load, readAt)
    case Some(Rejected(e)) => OnError(r, e)
  }

  predicate Pauses<T>(r: Resource<T>, f: nat)
    requires Settled(r.request, f)
  {
    r.request.runs[f].settled.value.Rejected? && r.request.runs[f].settled.value.failure.Unauthorized?
  }

  function ResumeRun<T>(r: Resource<T>, f: nat): Resource<T>
    requires Wf(r) && Settled(r.request, f)
  {
    Handle(r, f).(request := RefreshProtocol.Step(r.request, RunResumed(f, Pauses(r, f))))
  }

  /** A waiter's promise is resolved once its flight's coroutine has ended. */
  predicate Ready<T>(r: Resource<T>, w: nat) {
    w in r.waiters && r.waiters[w].flight !in r.request.runs
  }

  function WakeWaiter<T>(r: Resource<T>, w: nat): Resource<T>
    requires Ready(r, w)
  {
    var woken := r.(waiters := r.waiters - {w});
    if r.waiters[w].generation != r.generation then woken
    else Schedule(woken.(reading := false, view := woken.view.(refreshing := false)))
  }

  function Pause<T>(r: Resource<T>): Resource<T>
    requires Wf(r)
  {
    CancelAll(r.(active := false))
  }

  function ResumePolling<T>(r: Resource<T>): Resource<T>
    requires Wf(r)
  {
    if r.view.unauthorized then r else StartRefresh(CancelAll(r).(active := true))
  }

  function SetData<T>(r: Resource<T>, data: T): Resource<T>
    requires Wf(r)
  {
    var cancelled := CancelAll(r);
    var now := r.request.clock;
    Schedule(cancelled.(view := cancelled.view.(data := data),
                        writes := cancelled.writes + [Write(true, now, now, now, data)]))
  }

  function SetInterval<T>(r: Resource<T>, interval: Option<nat>): Resource<T> {
    if r.interval == interval then r else Schedule(r.(interval := interval))
  }

  function SetRetryOnError<T>(r: Resource<T>, enabled: bool, maxRetries: Option<nat>): Resource<T> {
    if r.retryOnError == enabled && r.maxRetries == maxRetries then r
    else Schedule(r.(retryOnError := enabled, maxRetries := maxRetries))
  }

  /** No continuation is queued.  Timer callbacks are tasks of their own: they
      run only when every settled run and every ready waiter has been served. */
  ghost predicate Quiet<T>(r: Resource<T>) {
    && (forall f :: !Settled(r.request, f))
    && (forall w :: !Ready(r, w))
  }

  ghost predicate TimerDue<T>(r: Resource<T>) {
    r.timer.Some? && Quiet(r)
  }

  datatype Event<T> =
    | ResumeEvent
    | PauseEvent
    | RefreshEvent
    | InvalidateEvent
    | SetDataEvent(data: T)
    | SetIntervalEvent(interval: Option<nat>)
    | SetRetryEvent(enabled: bool, maxRetries: Option<nat>)
    | TimerEvent
    | LoadEvent(flight: nat, load: nat, outcome: Outcome<T>)
    | TimeoutEvent(flight: nat)
    | RunEvent(flight: nat)
    | WaiterEvent(waiter: nat)

  /** Events the resource produces by itself; the others are calls from outside. */
  predicate Internal<T>(e: Event<T>) {
    e.TimerEvent? || e.LoadEvent? || e.TimeoutEvent? || e.RunEvent? || e.WaiterEvent?
  }

  ghost function Step<T>(r: Resource<T>, e: Event<T>): (r': Resource<T>)
    requires Wf(r)
    ensures Wf(r')
  {
    match e
    case ResumeEvent => ResumePolling(r)
    case PauseEvent => Pause(r)
    case RefreshEvent => StartRefresh(r)
    case InvalidateEvent => StartRefresh(CancelAll(r))
    case SetDataEvent(data) => SetData(r, data)
    case SetIntervalEvent(interval) => SetInterval(r, interval)
    case SetRetryEvent(enabled, maxRetries) => SetRetryOnError(r, enabled, maxRetries)
    case TimerEvent => if TimerDue(r) then StartRefresh(r.(timer := None)) else r
    case LoadEvent(f, load, o) => r.(request := RefreshProtocol.Step(r.request, LoadSettled(f, load, o)))
    case TimeoutEvent(f) => r.(request := RefreshProtocol.Step(r.request, TimedOut(f)))
    case RunEvent(f) => if Settled(r.request, f) then ResumeRun(r, f) else r
    case WaiterEvent(w) => if Ready(r, w) then WakeWaiter(r, w) else r
  }

  // ----- The invariant of every run ----------------------------------------

  predicate Current<T>(r: Resource<T>, w: nat) {
    w in r.waiters && r.waiters[w].generation == r.generation
  }

  ghost predicate Outstanding<T>(r: Resource<T>) {
    exists w :: Current(r, w)
  }

  ghost predicate WaitersInv<T>(r: Resource<T>) {
    && (forall w :: w in r.waiters ==> w < r.request.clock && r.waiters[w].generation <= r.generation)
    && (forall w :: Current(r, w) && r.waiters[w].flight in r.request.runs
          ==> r.request.flight == Some(r.waiters[w].flight))
    && (r.request.flight.Some? ==> exists w :: Current(r, w) && r.waiters[w].flight == r.request.flight.value)
    && (r.reading ==> Outstanding(r))
  }

  ghost predicate FlagsInv<T>(r: Resource<T>) {
    && (r.timer.Some? ==> r.active && !r.reading)
    && (r.active ==> !r.view.unauthorized)
    && (!r.active ==> r.request.flight.None? && !Outstanding(r) && !r.reading)
  }

  /** An active resource nobody waits for has exactly the timer it should have. */
  ghost predicate TimerInv<T>(r: Resource<T>) {
    r.active && !Outstanding(r) ==> r.timer == NextDelay(r)
  }

  /** A read that starts at `start` came after the write: a local write is never
      overtaken by a read that was already running. */
  predicate Precedes<T>(w: Write<T>, start: nat) {
    if w.local then w.at < start else w.at <= start
  }

  ghost predicate Ordered<T>(writes: seq<Write<T>>) {
    && (forall i :: 0 <= i < |writes| ==> writes[i].start <= writes[i].at)
    && (forall i, j :: 0 <= i < j < |writes| ==> Precedes(writes[i], writes[j].start))
  }

  /** Shown values are in order, and the live load began after the last of them. */
  ghost predicate WritesInv<T>(r: Resource<T>)
    requires Wf(r)
  {
    && Ordered(r.writes)
    && (forall i :: 0 <= i < |r.writes| ==> r.writes[i].at < r.request.clock)
    && (r.request.flight.Some? ==>
          forall i :: 0 <= i < |r.writes| ==> Precedes(r.writes[i], r.request.runs[r.request.flight.value].load))
  }

  /** Everything but TimerInv, which fails between cancel() and schedule(). */
  ghost predicate Core<T>(r: Resource<T>) {
    RefreshProtocol.Inv(r.request) && WaitersInv(r) && FlagsInv(r) && WritesInv(r)
  }

  ghost predicate Inv<T>(r: Resource<T>) {
    Core(r) && TimerInv(r)
  }

  lemma CancelKeepsCore<T>(r: Resource<T>)
    requires Core(r)
    ensures Core(CancelAll(r))
    ensures CancelAll(r).request.flight.None? && !Outstanding(CancelAll(r))
  {
    RefreshProtocol.StepKeepsInv(r.request, CancelCall);
  }

  lemma StartRefreshKeepsWaiters<T>(r: Resource<T>)
    requires Core(r) && r.active
    ensures Wf(StartRefresh(r)) && WaitersInv(StartRefresh(r)) && Outstanding(StartRefresh(r))
  {
    var r' := StartRefresh(r);
    var w := r.request.clock;
    assert Current(r', w);
    assert forall v :: v != w ==> (Current(r', v) <==> Current(r, v));
  }

  lemma StartRefreshKeepsWrites<T>(r: Resource<T>)
    requires Core(r) && r.active
    ensures Wf(StartRefresh(r)) && WritesInv(StartRefresh(r))
  {}

  lemma StartRefreshKeepsCore<T>(r: Resource<T>)
    requires Core(r)
    ensures Core(StartRefresh(r))
    ensures r.active ==> Inv(StartRefresh(r))
  {
    if r.active {
      RefreshProtocol.StepKeepsInv(r.request, RefreshCall);
      StartRefreshKeepsWaiters(r);
      StartRefreshKeepsWrites(r);
    }
  }

  lemma ScheduleKeepsCore<T>(r: Resource<T>)
    requires Core(r)
    ensures Core(Schedule(r))
    ensures Inv(Schedule(r))
  {
    assert forall w :: Current(Schedule(r), w) <==> Current(r, w);
  }

  /** Core looks at the waiters, the refresher and the flags, not at the rest. */
  lemma CoreFrame<T>(r: Resource<T>, r': Resource<T>)
    requires Core(r)
    requires r'.request == r.request && r'.waiters == r.waiters && r'.generation == r.generation
    requires r'.reading == r.reading && r'.writes == r.writes
    requires r'.timer == r.timer || r'.timer.None?
    requires r'.active ==> !r'.view.unauthorized
    requires r'.active == r.active || (r.request.flight.None? && !Outstanding(r) && !r.reading && r'.timer.None?)
    ensures Core(r') && (Outstanding(r') <==> Outstanding(r))
  {
    assert forall w :: Current(r', w) <==> Current(r, w);
  }

  lemma SetDataKeepsInv<T>(r: Resource<T>, data: T)
    requires Core(r)
    ensures Inv(SetData(r, data))
  {
    CancelKeepsCore(r);
    var c := CancelAll(r);
    var d := c.(view := c.view.(data := data),
                writes := c.writes + [Write(true, r.request.clock, r.request.clock, r.request.clock, data)]);
    assert forall w :: Current(d, w) <==> Current(c, w);
    ScheduleKeepsCore(d);
  }

  lemma ResumePollingKeepsInv<T>(r: Resource<T>)
    requires Inv(r)
    ensures Inv(ResumePolling(r))
  {
    if !r.view.unauthorized {
      CancelKeepsCore(r);
      CoreFrame(CancelAll(r), CancelAll(r).(active := true));
      StartRefreshKeepsCore(CancelAll(r).(active := true));
    }
  }

  lemma PauseKeepsInv<T>(r: Resource<T>)
    requires Inv(r)
    ensures Inv(Pause(r))
  {
    CancelKeepsCore(r);
    CoreFrame(CancelAll(r), CancelAll(r).(active := false));
    assert CancelAll(r).(active := false) == Pause(r);
  }

  lemma CallsKeepInv<T>(r: Resource<T>, e: Event<T>)
    requires Inv(r) && !Internal(e)
    ensures Inv(Step(r, e))
  {
    match e
    case ResumeEvent => ResumePollingKeepsInv(r);
    case PauseEvent => PauseKeepsInv(r);
    case RefreshEvent => StartRefreshKeepsCore(r);
    case InvalidateEvent =>
      CancelKeepsCore(r);
      StartRefreshKeepsCore(CancelAll(r));
    case SetDataEvent(data) => SetDataKeepsInv(r, data);
    case SetIntervalEvent(interval) =>
      if r.interval != interval {
        CoreFrame(r, r.(interval := interval));
        ScheduleKeepsCore(r.(interval := interval));
      }
    case SetRetryEvent(enabled, max) =>
      if r.retryOnError != enabled || r.maxRetries != max {
        CoreFrame(r, r.(retryOnError := enabled, maxRetries := max));
        ScheduleKeepsCore(r.(retryOnError := enabled, maxRetries := max));
      }
  }

  predicate SameReads<T>(q: Request<T>, q': Request<T>) {
    && q'.flight == q.flight && q'.runs.Keys == q.runs.Keys && q.clock <= q'.clock
    && (forall f :: f in q.runs ==> q'.runs[f].load == q.runs[f].load)
  }

  lemma RequestFrame<T>(r: Resource<T>, q: Request<T>)
    requires Inv(r) && RefreshProtocol.Inv(q) && SameReads(r.request, q)
    ensures Inv(r.(request := q))
  {
    assert forall w :: Current(r.(request := q), w) <==> Current(r, w);
  }

  lemma SettleKeepsInv<T>(r: Resource<T>, e: Event<T>)
    requires Inv(r) && (e.LoadEvent? || e.TimeoutEvent?)
    ensures Inv(Step(r, e))
  {
    var event := if e.LoadEvent? then LoadSettled(e.flight, e.load, e.outcome) else TimedOut(e.flight);
    RefreshProtocol.StepKeepsInv(r.request, event);
    RequestFrame(r, RefreshProtocol.Step(r.request, event));
  }

  lemma ResumeKeepsWaiters<T>(r: Resource<T>, f: nat)
    requires Inv(r) && Settled(r.request, f)
    ensures WaitersInv(ResumeRun(r, f))
  {
    var r' := ResumeRun(r, f);
    ResumeShape(r.request, f, Pauses(r, f));
    if r'.generation == r.generation {
      assert forall w :: Current(r', w) <==> Current(r, w);
    } else {
      assert forall w :: !Current(r', w);
    }
  }

  lemma ResumeKeepsFlags<T>(r: Resource<T>, f: nat)
    requires Inv(r) && Settled(r.request, f)
    ensures FlagsInv(ResumeRun(r, f)) && TimerInv(ResumeRun(r, f))
  {
    var r' := ResumeRun(r, f);
    ResumeShape(r.request, f, Pauses(r, f));
    if r'.generation == r.generation {
      assert forall w :: Current(r', w) <==> Current(r, w);
    } else {
      assert forall w :: !Current(r', w);
    }
  }

  lemma ResumeKeepsWrites<T>(r: Resource<T>, f: nat)
    requires RunsInv(r.request) && WritesInv(r) && Settled(r.request, f)
    ensures Wf(ResumeRun(r, f)) && WritesInv(ResumeRun(r, f))
  {
    ResumeShape(r.request, f, Pauses(r, f));
    var r' := ResumeRun(r, f);
    if Delivered(r.request, f).Some? && Delivered(r.request, f).value.Value? {
      var value := Delivered(r.request, f).value;
      var write := Write(false, r.request.runs[f].load, r.request.clock, value.readAt, value.value);
      assert r'.writes == r.writes + [write];
    } else {
      assert r'.writes == r.writes;
    }
  }

  lemma WakeKeepsInv<T>(r: Resource<T>, w: nat)
    requires Inv(r) && Ready(r, w)
    ensures Inv(WakeWaiter(r, w))
  {
    var woken := r.(waiters := r.waiters - {w});
    assert forall v :: Current(woken, v) <==> Current(r, v) && v != w;
    if Current(r, w) {
      var idle := woken.(reading := false, view := woken.view.(refreshing := false));
      assert forall v :: Current(idle, v) <==> Current(woken, v);
      ScheduleKeepsCore(idle);
    } else {
      assert Outstanding(r) ==> Outstanding(woken);
    }
  }

  lemma StepKeepsInv<T>(r: Resource<T>, e: Event<T>)
    requires Inv(r)
    ensures Inv(Step(r, e))
  {
    match e
    case TimerEvent =>
      if TimerDue(r) {
        CoreFrame(r, r.(timer := None));
        StartRefreshKeepsCore(r.(timer := None));
      }
    case LoadEvent(_, _, _) => SettleKeepsInv(r, e);
    case TimeoutEvent(_) => SettleKeepsInv(r, e);
    case RunEvent(f) =>
      if Settled(r.request, f) {
        RefreshProtocol.StepKeepsInv(r.request, RunResumed(f, Pauses(r, f)));
        ResumeKeepsWaiters(r, f);
        ResumeKeepsFlags(r, f);
        ResumeKeepsWrites(r, f);
      }
    case WaiterEvent(w) => if Ready(r, w) { WakeKeepsInv(r, w); }
    case _ => CallsKeepInv(r, e);
  }

  // ----- Every run ---------------------------------------------------------

  ghost function RunFrom<T>(r: Resource<T>, es: seq<Event<T>>): (r': Resource<T>)
    requires Wf(r)
    ensures Wf(r')
  {
    if es == [] then r else Step(RunFrom(r, es[..|es| - 1]), es[|es| - 1])
  }

  ghost function After<T>(initial: T, es: seq<Event<T>>): (r: Resource<T>)
    ensures Wf(r)
  {
    RunFrom(Create(initial), es)
  }

  lemma {:induction false} RunKeepsInv<T>(r: Resource<T>, es: seq<Event<T>>)
    requires Inv(r)
    ensures Inv(RunFrom(r, es))
  {
    if es != [] {
      RunKeepsInv(r, es[..|es| - 1]);
      StepKeepsInv(RunFrom(r, es[..|es| - 1]), es[|es| - 1]);
    }
  }

  lemma ReachableInv<T>(initial: T, es: seq<Event<T>>)
    ensures Inv(After(initial, es))
  {
    RunKeepsInv(Create(initial), es);
  }

  /** Whatever is shown was read after everything shown before it: loads that
      were applied have disjoint, ordered intervals, and no read that started
      before a local write ever overwrites it. */
  lemma ShownValuesAreOrdered<T>(initial: T, es: seq<Event<T>>, i: nat, j: nat)
    requires i < j < |After(initial, es).writes|
    ensures var w := After(initial, es).writes;
      && w[i].start <= w[i].at <= w[j].start <= w[j].at
      && (w[i].local ==> w[i].at < w[j].start)
  {
    ReachableInv(initial, es);
    var w := After(initial, es).writes;
    assert Ordered(w) && Precedes(w[i], w[j].start);
  }

  /** A timer is pending only for an active, authorized resource whose `reading` flag is
      down; a paused or unauthorized one has neither a timer nor a flight. */
  lemma PollerIsDisciplined<T>(initial: T, es: seq<Event<T>>)
    ensures var r := After(initial, es);
      && (r.timer.Some? ==> r.active && !r.reading && !r.view.unauthorized)
      && (!r.active || r.view.unauthorized ==>
            r.timer.None? && r.request.flight.None? && !r.reading && forall w :: !Current(r, w))
  {
    ReachableInv(initial, es);
  }

  // ----- A timer beside a read -----------------------------------------------

  /** A live flight is announced by the reading flag, so no timer runs beside it. */
  predicate Announced<T>(r: Resource<T>) {
    r.request.flight.Some? ==> r.reading
  }

  /** A caller of an ended flight wakes in the same generation while another flight is
      already live: it clears the flag that flight raised. */
  ghost predicate Overtaken<T>(r: Resource<T>, e: Event<T>) {
    && r.request.flight.Some?
    && e.WaiterEvent? && Ready(r, e.waiter) && Current(r, e.waiter)
  }

  lemma AnnouncedStep<T>(r: Resource<T>, e: Event<T>)
    requires Inv(r) && Announced(r)
    ensures Announced(Step(r, e)) <==> !Overtaken(r, e)
  {
    if e.RunEvent? && Settled(r.request, e.flight) { ResumeShape(r.request, e.flight, Pauses(r, e.flight)); }
  }

  /** Throughout a run every live flight is announced, and so no timer is pending beside
      one, if and only if no caller is ever overtaken. */
  lemma {:induction false} NoTimerBesideRead<T>(initial: T, es: seq<Event<T>>)
    ensures (forall n :: 0 <= n <= |es| ==> Announced(After(initial, es[..n])))
      <==> (forall n :: 0 <= n < |es| ==> !Overtaken(After(initial, es[..n]), es[n]))
    ensures (forall n :: 0 <= n < |es| ==> !Overtaken(After(initial, es[..n]), es[n])) ==>
      After(initial, es).timer.Some? ==> After(initial, es).request.flight.None?
  {
    ReachableInv(initial, es);
    assert es[..|es|] == es;
    if forall n :: 0 <= n < |es| ==> !Overtaken(After(initial, es[..n]), es[n]) {
      forall n | 0 <= n <= |es| ensures Announced(After(initial, es[..n])) { AnnouncedThroughout(initial, es, n); }
      assert Announced(After(initial, es[..|es|]));
    }
    if forall n :: 0 <= n <= |es| ==> Announced(After(initial, es[..n])) {
      forall n | 0 <= n < |es| ensures !Overtaken(After(initial, es[..n]), es[n]) {
        ReachableInv(initial, es[..n]);
        AnnouncedStep(After(initial, es[..n]), es[n]);
        AfterPrefix(initial, es, n);
        assert Announced(After(initial, es[..n])) && Announced(After(initial, es[..n + 1]));
      }
    }
  }

  lemma AfterPrefix<T>(initial: T, es: seq<Event<T>>, n: nat)
    requires n < |es|
    ensures After(initial, es[..n + 1]) == Step(After(initial, es[..n]), es[n])
  {
    assert es[..n + 1][..n] == es[..n];
  }

  lemma {:induction false} AnnouncedThroughout<T>(initial: T, es: seq<Event<T>>, n: nat)
    requires n <= |es| && forall k :: 0 <= k < |es| ==> !Overtaken(After(initial, es[..k]), es[k])
    ensures Announced(After(initial, es[..n]))
  {
    if 0 < n {
      AnnouncedThroughout(initial, es, n - 1);
      ReachableInv(initial, es[..n - 1]);
      AnnouncedStep(After(initial, es[..n - 1]), es[n - 1]);
      AfterPrefix(initial, es, n - 1);
    }
  }

  /** A poll is answered, and before its caller wakes another refresh starts a flight. */
  function StaleWake<T>(v: T): seq<Event<T>> {
    [SetIntervalEvent(Some(1000)), ResumeEvent, LoadEvent(1, 1, Value(v, 1)), RunEvent(1), RefreshEvent, WaiterEvent(1)]
  }

  /** The woken caller then schedules beside the new read. */
  lemma TimerBesideRead<T>(v: T)
    ensures var r := After(v, StaleWake(v));
      r.active && !r.reading && r.timer == Some(1000) && r.request.flight.Some?
  {
    var es := StaleWake(v);
    LoadOver(v, es);
    TwoSteps(v, es, 4);
    WokenLate(After(v, es[..4]));
    assert es[..6] == es;
  }

  lemma LoadOut<T>(v: T, es: seq<Event<T>>)
    requires |es| >= 4 && es[0] == SetIntervalEvent(Some(1000)) && es[1] == ResumeEvent
    ensures LoadStarted(After(v, es[..2]))
  {
    TwoSteps(v, es, 0);
    FirstLoad(v);
    assert es[..0] == [];
  }

  lemma LoadOver<T>(v: T, es: seq<Event<T>>)
    requires |es| >= 4 && es[0] == SetIntervalEvent(Some(1000)) && es[1] == ResumeEvent
    requires es[2] == LoadEvent(1, 1, Value(v, 1)) && es[3] == RunEvent(1)
    ensures LoadEnded(After(v, es[..4]))
  {
    LoadOut(v, es);
    TwoSteps(v, es, 2);
    LoadApplied(After(v, es[..2]), v);
  }

  lemma TwoSteps<T>(v: T, es: seq<Event<T>>, n: nat)
    requires n + 2 <= |es|
    ensures After(v, es[..n + 2]) == Step(Step(After(v, es[..n]), es[n]), es[n + 1])
  {
    AfterPrefix(v, es, n);
    AfterPrefix(v, es, n + 1);
  }

  /** An active resource that polls every second and has one caller waiting. */
  predicate OneCaller<T>(r: Resource<T>) {
    && r.active && !r.view.unauthorized && r.interval == Some(1000) && r.view.failure.None?
    && r.generation == 1 && r.waiters == map[1 := Waiter(1, 1)]
  }

  ghost predicate LoadStarted<T>(r: Resource<T>) {
    && OneCaller(r) && r.request.clock == 2 && r.request.flight == Some(1)
    && r.request.runs == map[1 := Run(false, false, 1, None)] && r.reading
  }

  ghost predicate LoadEnded<T>(r: Resource<T>) {
    && OneCaller(r) && r.request.clock == 4 && r.request.flight.None? && r.request.runs == map[]
    && r.failures == 0 && r.reading
  }

  lemma FirstLoad<T>(v: T)
    ensures LoadStarted(Step(Step(After(v, []), SetIntervalEvent(Some(1000))), ResumeEvent))
  {}

  lemma LoadApplied<T>(r: Resource<T>, v: T)
    requires LoadStarted(r)
    ensures LoadEnded(Step(Step(r, LoadEvent(1, 1, Value(v, 1))), RunEvent(1)))
  {
    var answered := Step(r, LoadEvent(1, 1, Value(v, 1)));
    assert answered.request.runs == map[1 := Run(false, false, 1, Some(Value(v, 1)))];
    ResumeShape(answered.request, 1, false);
  }

  lemma WokenLate<T>(r: Resource<T>)
    requires LoadEnded(r)
    ensures var r' := Step(Step(r, RefreshEvent), WaiterEvent(1));
      r'.active && !r'.reading && r'.timer == Some(1000) && r'.request.flight.Some?
  {
    var again := Step(r, RefreshEvent);
    assert Ready(again, 1) && Current(again, 1) && again.request.flight == Some(4);
  }

  /** The step that puts a timer beside a live flight: exactly one that schedules while the
      flag is down, or takes it down. */
  ghost predicate SchedulesBeside<T>(r: Resource<T>, e: Event<T>) {
    r.request.flight.Some? &&
    match e
    case WaiterEvent(w) => Ready(r, w) && Current(r, w) && NextDelay(r).Some?
    case SetIntervalEvent(i) => i != r.interval && !r.reading && NextDelay(r.(interval := i)).Some?
    case SetRetryEvent(on, max) =>
      && (on != r.retryOnError || max != r.maxRetries) && !r.reading
      && NextDelay(r.(retryOnError := on, maxRetries := max)).Some?
    case _ => false
  }

  lemma TimerBesideReadExactly<T>(r: Resource<T>, e: Event<T>)
    requires Inv(r) && (r.timer.Some? ==> r.request.flight.None?)
    ensures (Step(r, e).timer.Some? && Step(r, e).request.flight.Some?) <==> SchedulesBeside(r, e)
  {
    if e.RunEvent? && Settled(r.request, e.flight) { ResumeShape(r.request, e.flight, Pauses(r, e.flight)); }
  }

  /** An active resource that should poll again either has exactly the timer its
      policy asks for, or somebody still waits for a read: one whose coroutine is
      suspended in the live flight, or one whose continuation is queued. */
  lemma NeverStalls<T>(initial: T, es: seq<Event<T>>)
    requires After(initial, es).active && NextDelay(After(initial, es)).Some?
    ensures var r := After(initial, es);
      || r.timer == NextDelay(r)
      || exists w :: Current(r, w) && (r.request.flight == Some(r.waiters[w].flight) || Ready(r, w))
  {
    ReachableInv(initial, es);
    var r := After(initial, es);
    if Outstanding(r) {
      var w :| Current(r, w);
      assert r.request.flight == Some(r.waiters[w].flight) || Ready(r, w);
    }
  }

  // ----- Authorization failures are final ----------------------------------

  lemma StepKeepsUnauthorized<T>(r: Resource<T>, e: Event<T>)
    requires Inv(r) && r.view.unauthorized
    ensures var r' := Step(r, e);
      r'.view.unauthorized && r'.view.failure == r.view.failure && r'.request.loads == r.request.loads
  {
    if e.RunEvent? && Settled(r.request, e.flight) {
      ResumeShape(r.request, e.flight, Pauses(r, e.flight));
    }
  }

  /** From an authorization failure on, no event ever starts another load. */
  lemma {:induction false} UnauthorizedIsAbsorbing<T>(r: Resource<T>, es: seq<Event<T>>)
    requires Inv(r) && r.view.unauthorized
    ensures var r' := RunFrom(r, es);
      r'.view.unauthorized && r'.view.failure == r.view.failure && r'.request.loads == r.request.loads
  {
    if es != [] {
      UnauthorizedIsAbsorbing(r, es[..|es| - 1]);
      RunKeepsInv(r, es[..|es| - 1]);
      StepKeepsUnauthorized(RunFrom(r, es[..|es| - 1]), es[|es| - 1]);
    }
  }

  // ----- Server versions ---------------------------------------------------

  predicate Honest<T>(r: Resource<T>, e: Event<T>) {
    e.LoadEvent? && e.outcome.Value? ==> e.load <= e.outcome.readAt <= r.request.clock
  }

  ghost predicate HonestRun<T>(r: Resource<T>, es: seq<Event<T>>)
    requires Wf(r)
  {
    es == [] || (HonestRun(r, es[..|es| - 1]) && Honest(RunFrom(r, es[..|es| - 1]), es[|es| - 1]))
  }

  ghost predicate ReadsInv<T>(r: Resource<T>) {
    && RefreshProtocol.ReadsInv(r.request)
    && forall i :: 0 <= i < |r.writes| ==> r.writes[i].start <= r.writes[i].readAt <= r.writes[i].at
  }

  lemma CancelKeepsReads<T>(r: Resource<T>)
    requires Wf(r) && ReadsInv(r)
    ensures ReadsInv(CancelAll(r))
  {
    RefreshProtocol.StepKeepsReads(r.request, CancelCall);
  }

  lemma StartRefreshKeepsReads<T>(r: Resource<T>)
    requires Wf(r) && ReadsInv(r)
    ensures ReadsInv(StartRefresh(r))
  {
    RefreshProtocol.StepKeepsReads(r.request, RefreshCall);
  }

  lemma RunKeepsReadsOnce<T>(r: Resource<T>, f: nat)
    requires Wf(r) && ReadsInv(r) && Settled(r.request, f)
    ensures ReadsInv(ResumeRun(r, f))
  {
    RefreshProtocol.StepKeepsReads(r.request, RunResumed(f, Pauses(r, f)));
  }

  lemma StepKeepsReads<T>(r: Resource<T>, e: Event<T>)
    requires Wf(r) && ReadsInv(r) && Honest(r, e)
    ensures ReadsInv(Step(r, e))
  {
    match e
    case ResumeEvent =>
      CancelKeepsReads(r);
      StartRefreshKeepsReads(CancelAll(r).(active := true));
    case PauseEvent => CancelKeepsReads(r.(active := false));
    case RefreshEvent => StartRefreshKeepsReads(r);
    case InvalidateEvent => CancelKeepsReads(r); StartRefreshKeepsReads(CancelAll(r));
    case SetDataEvent(_) => CancelKeepsReads(r);
    case SetIntervalEvent(_) =>
    case SetRetryEvent(_, _) =>
    case TimerEvent => StartRefreshKeepsReads(r.(timer := None));
    case LoadEvent(f, load, o) => RefreshProtocol.StepKeepsReads(r.request, LoadSettled(f, load, o));
    case TimeoutEvent(f) => RefreshProtocol.StepKeepsReads(r.request, TimedOut(f));
    case RunEvent(f) => if Settled(r.request, f) { RunKeepsReadsOnce(r, f); }
    case WaiterEvent(_) =>
  }

  lemma {:induction false} RunKeepsReads<T>(r: Resource<T>, es: seq<Event<T>>)
    requires ReadsInv(r) && Wf(r) && HonestRun(r, es)
    ensures ReadsInv(RunFrom(r, es))
  {
    if es != [] {
      RunKeepsReads(r, es[..|es| - 1]);
      StepKeepsReads(RunFrom(r, es[..|es| - 1]), es[|es| - 1]);
    }
  }

  /** The data never goes back to an older server moment, nor behind a local write. */
  lemma {:induction false} DataNeverGoesBack<T>(initial: T, es: seq<Event<T>>, i: nat, j: nat)
    requires HonestRun(Create(initial), es)
    requires i < j < |After(initial, es).writes|
    ensures After(initial, es).writes[i].readAt <= After(initial, es).writes[j].readAt
    ensures After(initial, es).writes[i].local ==> After(initial, es).writes[i].at < After(initial, es).writes[j].readAt
  {
    RunKeepsReads(Create(initial), es);
    ShownValuesAreOrdered(initial, es, i, j);
  }

  // ----- The retry budget --------------------------------------------------

  /** How many reads the timer started during a run. */
  ghost function TimerReads<T>(r: Resource<T>, es: seq<Event<T>>): nat
    requires Wf(r)
  {
    if es == [] then 0
    else
      var before := RunFrom(r, es[..|es| - 1]);
      TimerReads(r, es[..|es| - 1]) + if es[|es| - 1] == TimerEvent && TimerDue(before) then 1 else 0
  }

  /** Reads the timer may still start: one per failure left, and the read in
      flight already holds the next failure. */
  function Budget<T>(r: Resource<T>, max: nat): nat {
    var used := r.failures + if r.request.flight.Some? then 1 else 0;
    if used <= max then max + 1 - used else 0
  }

  /** During an undisturbed failure streak the only read is the timer's. */
  ghost predicate Streak<T>(r: Resource<T>, max: nat) {
    && r.maxRetries == Some(max) && r.view.failure.Some?
    && (r.request.flight.Some? ==>
          && r.timer.None? && r.request.flight.value in r.request.runs
          && !r.request.runs[r.request.flight.value].pending
          && forall w :: Current(r, w) ==> r.waiters[w].flight == r.request.flight.value)
  }

  lemma WritesOnlyGrow<T>(r: Resource<T>, e: Event<T>)
    requires Wf(r)
    ensures r.writes <= Step(r, e).writes
  {
    if e.SetDataEvent? {
      assert r.writes <= SetData(r, e.data).writes;
    } else if e.RunEvent? && Settled(r.request, e.flight) {
      assert r.writes <= ResumeRun(r, e.flight).writes;
    } else {
      assert r.writes == Step(r, e).writes;
    }
  }

  lemma TimerSpendsBudget<T>(r: Resource<T>, max: nat)
    requires Inv(r) && Streak(r, max) && TimerDue(r)
    ensures var r' := Step(r, TimerEvent);
      Streak(r', max) && Budget(r', max) + 1 == Budget(r, max)
  {
    assert forall w :: Current(r, w) ==> Ready(r, w);
    assert r.timer == NextDelay(r) && !Terminal(r);
    var r' := Step(r, TimerEvent);
    assert forall w :: !Current(r, w);
    assert forall w :: Current(r', w) ==> w == r.request.clock || Current(r, w);
  }

  lemma RunKeepsStreak<T>(r: Resource<T>, f: nat, max: nat)
    requires Inv(r) && Streak(r, max) && Settled(r.request, f)
    requires ResumeRun(r, f).writes == r.writes
    ensures Streak(ResumeRun(r, f), max) && Budget(ResumeRun(r, f), max) <= Budget(r, max)
  {
    ResumeShape(r.request, f, Pauses(r, f));
    var r' := ResumeRun(r, f);
    if r.request.flight == Some(f) {
      assert Delivered(r.request, f).Some?;
      assert Delivered(r.request, f).value.Value? ==> |r'.writes| == |r.writes| + 1;
      assert r'.failures == r.failures + 1 && r'.request.flight.None?;
    } else {
      assert forall w :: Current(r', w) <==> Current(r, w);
    }
  }

  lemma WakeKeepsStreak<T>(r: Resource<T>, w: nat, max: nat)
    requires Inv(r) && Streak(r, max) && Ready(r, w)
    ensures Streak(WakeWaiter(r, w), max) && Budget(WakeWaiter(r, w), max) == Budget(r, max)
  {
    var r' := WakeWaiter(r, w);
    assert r.request.flight.Some? ==> !Current(r, w);
    assert forall v :: Current(r', v) ==> Current(r, v) && r'.waiters[v] == r.waiters[v];
  }

  lemma SettleKeepsStreak<T>(r: Resource<T>, e: Event<T>, max: nat)
    requires Inv(r) && Streak(r, max) && (e.LoadEvent? || e.TimeoutEvent?)
    ensures Streak(Step(r, e), max) && Budget(Step(r, e), max) == Budget(r, max)
  {
    assert forall v :: Current(Step(r, e), v) <==> Current(r, v);
  }

  lemma StepKeepsStreak<T>(r: Resource<T>, e: Event<T>, max: nat)
    requires Inv(r) && Streak(r, max) && Internal(e) && Step(r, e).writes == r.writes
    ensures Streak(Step(r, e), max)
    ensures Budget(Step(r, e), max) + (if e == TimerEvent && TimerDue(r) then 1 else 0) <= Budget(r, max)
  {
    if e.TimerEvent? {
      if TimerDue(r) { TimerSpendsBudget(r, max); }
    } else if e.RunEvent? {
      if Settled(r.request, e.flight) { RunKeepsStreak(r, e.flight, max); }
    } else if e.WaiterEvent? {
      if Ready(r, e.waiter) { WakeKeepsStreak(r, e.waiter, max); }
    } else {
      SettleKeepsStreak(r, e, max);
    }
  }

  /** From a failure on, with no call from outside and no success, the timer
      starts at most the retries that are left. */
  lemma {:induction false} RetryBudget<T>(r: Resource<T>, es: seq<Event<T>>, max: nat)
    requires Inv(r) && Streak(r, max)
    requires forall e :: e in es ==> Internal(e)
    requires |RunFrom(r, es).writes| == |r.writes|
    ensures TimerReads(r, es) + Budget(RunFrom(r, es), max) <= Budget(r, max)
    ensures RunFrom(r, es).writes == r.writes && Streak(RunFrom(r, es), max)
  {
    if es != [] {
      var before := RunFrom(r, es[..|es| - 1]);
      RunKeepsInv(r, es[..|es| - 1]);
      WritesOnlyGrow(before, es[|es| - 1]);
      RunWritesOnlyGrow(r, es[..|es| - 1]);
      RetryBudget(r, es[..|es| - 1], max);
      StepKeepsStreak(before, es[|es| - 1], max);
    }
  }

  lemma {:induction false} RunWritesOnlyGrow<T>(r: Resource<T>, es: seq<Event<T>>)
    requires Wf(r)
    ensures r.writes <= RunFrom(r, es).writes
  {
    if es != [] {
      RunWritesOnlyGrow(r, es[..|es| - 1]);
      WritesOnlyGrow(RunFrom(r, es[..|es| - 1]), es[|es| - 1]);
    }
  }

  /** Consecutive failures wait longer and longer, but never over half a minute. */
  lemma RetryDelayBounds(interval: Option<nat>, a: nat, b: nat)
    requires a <= b
    ensures RetryDelay(interval, a) <= RetryDelay(interval, b) <= MAX_RETRY_DELAY
    ensures RetryDelay(interval, a) < RetryDelay(interval, b) ==> a < MAX_DOUBLINGS
    ensures interval != Some(0) ==> 0 < RetryDelay(interval, a)
  {
    DoubledGrows(interval.GetOr(DEFAULT_RETRY_BASE), Min(a, MAX_DOUBLINGS), Min(b, MAX_DOUBLINGS), MAX_RETRY_DELAY);
  }
}
