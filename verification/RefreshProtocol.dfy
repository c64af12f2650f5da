/** The single-flight refresher as a transition system.

    Every `await` of the source ends a step.  A flight and its one `run`
    coroutine share an identity; a coroutine suspended at its race stays in
    `runs` until it is resumed, also after its flight was cancelled.  Identities
    and load numbers are drawn from the event counter `clock`, so a load's
    number is the moment it started. */
module RefreshProtocol {
  import opened Wrappers

  datatype Failure =
    | Unauthorized(message: string)
    | Api(status: int, message: string)
    | Other(message: string)

  /** What a load settles with.  `readAt` is the server moment the value shows. */
  datatype Outcome<T> = Value(value: T, readAt: nat) | Rejected(failure: Failure)

  const ABORT_ERROR := Other("Request canceled")
  const TIMEOUT_ERROR := Other("Refresh timed out")

  datatype Run<T> = Run(pending: bool, aborted: bool, load: nat, settled: Option<Outcome<T>>)

  datatype Call = Call(at: nat, flight: nat)
  datatype Load = Load(at: nat, flight: nat)
  datatype Delivery<T> = Delivery(start: nat, end: nat, outcome: Outcome<T>)

  /** `calls`, `loads`, `cancelled` and `deliveries` are history: no step of the
      protocol looks at them. */
  datatype Request<T> = Request(
    clock: nat,
    flight: Option<nat>,
    runs: map<nat, Run<T>>,
    calls: set<Call>,
    loads: set<Load>,
    cancelled: set<nat>,
    deliveries: seq<Delivery<T>>)

  function Init<T>(): Request<T> {
    Request(0, None, map[], {}, {}, {}, [])
  }

  predicate Wf<T>(q: Request<T>) {
    q.flight.Some? ==> q.flight.value in q.runs
  }

  /** refresh(): joins the live flight, or opens one and starts its first load. */
  function Refresh<T>(q: Request<T>): Request<T>
    requires Wf(q)
  {
    match q.flight
    case Some(f) =>
      q.(runs := q.runs[f := q.runs[f].(pending := true)],
         calls := q.calls + {Call(q.clock, f)})
    case None =>
      q.(flight := Some(q.clock),
         runs := q.runs[q.clock := Run(false, false, q.clock, None)],
         calls := q.calls + {Call(q.clock, q.clock)},
         loads := q.loads + {Load(q.clock, q.clock)})
  }

  /** Aborting rejects the race, which keeps its first settlement. */
  function Aborted<T>(run: Run<T>): Run<T> {
    run.(aborted := true, settled := if run.settled.Some? then run.settled else Some(Rejected(ABORT_ERROR)))
  }

  function Cancel<T>(q: Request<T>): Request<T>
    requires Wf(q)
  {
    match q.flight
    case None => q
    case Some(f) =>
      q.(flight := None, runs := q.runs[f := Aborted(q.runs[f])], cancelled := q.cancelled + {f})
  }

  predicate Awaiting<T>(q: Request<T>, f: nat) {
    f in q.runs && q.runs[f].settled.None?
  }

  predicate Settled<T>(q: Request<T>, f: nat) {
    f in q.runs && q.runs[f].settled.Some?
  }

  /** The load numbered `load` answers; only the race still waiting for it hears. */
  function Respond<T>(q: Request<T>, f: nat, load: nat, outcome: Outcome<T>): Request<T> {
    if Awaiting(q, f) && q.runs[f].load == load then
      q.(runs := q.runs[f := q.runs[f].(settled := Some(outcome))])
    else q
  }

  /** The timer callback rejects the race and aborts the controller.  It is a
      task of its own, so it never runs between a settlement and its resumption. */
  function Timeout<T>(q: Request<T>, f: nat): Request<T> {
    if Awaiting(q, f) then
      q.(runs := q.runs[f := q.runs[f].(settled := Some(Rejected(TIMEOUT_ERROR)), aborted := true)])
    else q
  }

  /** What the resumed coroutine hands to onValue or onError, if anything. */
  function Delivered<T>(q: Request<T>, f: nat): Option<Outcome<T>>
    requires Settled(q, f)
  {
    if q.flight == Some(f) && (q.runs[f].settled.value.Rejected? || !q.runs[f].aborted)
    then q.runs[f].settled else None
  }

  function Record<T>(q: Request<T>, f: nat): Request<T>
    requires Settled(q, f)
  {
    if Delivered(q, f).None? then q
    else q.(deliveries := q.deliveries + [Delivery(q.runs[f].load, q.clock, Delivered(q, f).value)])
  }

  /** The loop condition and the code after the loop. */
  function Continue<T>(q: Request<T>, f: nat): Request<T>
    requires f in q.runs
  {
    if q.flight == Some(f) && q.runs[f].pending then
      q.(runs := q.runs[f := Run(false, false, q.clock, None)], loads := q.loads + {Load(q.clock, f)})
    else
      q.(runs := q.runs - {f}, flight := if q.flight == Some(f) then None else q.flight)
  }

  function Tick<T>(q: Request<T>): Request<T> { q.(clock := q.clock + 1) }

  /** One resumption.  `cancels` says whether the handler called cancel(). */
  function Resume<T>(q: Request<T>, f: nat, cancels: bool): Request<T>
    requires Wf(q) && Settled(q, f)
  {
    var recorded := Record(q, f);
    var handled := if cancels && Delivered(q, f).Some? then Tick(Cancel(recorded)) else recorded;
    Continue(handled, f)
  }

  datatype Event<T> =
    | RefreshCall
    | CancelCall
    | LoadSettled(flight: nat, load: nat, outcome: Outcome<T>)
    | TimedOut(flight: nat)
    | RunResumed(flight: nat, cancels: bool)

  function Step<T>(q: Request<T>, e: Event<T>): (q': Request<T>)
    requires Wf(q)
    ensures Wf(q')
  {
    Tick(match e
         case RefreshCall => Refresh(q)
         case CancelCall => Cancel(q)
         case LoadSettled(f, load, o) => Respond(q, f, load, o)
         case TimedOut(f) => Timeout(q, f)
         case RunResumed(f, cancels) => if Settled(q, f) then Resume(q, f, cancels) else q)
  }

  // ----- The invariant of every run ---------------------------------------

  predicate Pending<T>(q: Request<T>)
    requires Wf(q)
  {
    q.flight.Some? && q.runs[q.flight.value].pending
  }

  ghost predicate RunsInv<T>(q: Request<T>) {
    && Wf(q)
    && (forall f :: f in q.runs ==> f <= q.runs[f].load < q.clock)
    && (forall f :: f in q.runs && q.flight != Some(f) ==>
          q.runs[f].aborted && q.runs[f].settled.Some? && f in q.cancelled)
    && (q.flight.Some? ==> var run := q.runs[q.flight.value];
          run.settled.None? || run.settled.value.Value? ==> !run.aborted)
    && (forall f :: f in q.cancelled ==> f < q.clock && q.flight != Some(f))
  }

  ghost predicate StartedInv<T>(q: Request<T>) {
    forall f :: f in q.runs ==> Load(q.runs[f].load, f) in q.loads
  }

  /** A call is answered by a load of its flight that starts at or after it, is
      waiting behind the pending flag of the live flight, or was cancelled. */
  ghost predicate Answered<T>(q: Request<T>, c: Call)
    requires Wf(q)
  {
    || c.flight in q.cancelled
    || (q.flight == Some(c.flight) && q.runs[c.flight].pending)
    || exists l :: l in q.loads && l.flight == c.flight && c.at <= l.at
  }

  ghost predicate CalledBetween<T>(q: Request<T>, f: nat, from: nat, to: nat) {
    exists c :: c in q.calls && c.flight == f && from < c.at <= to
  }

  ghost predicate CallsInv<T>(q: Request<T>)
    requires Wf(q)
  {
    && (forall c :: c in q.calls ==> c.at < q.clock && c.flight < q.clock && Answered(q, c))
    && (forall c :: c in q.calls && q.flight == Some(c.flight) ==>
          c.at <= q.runs[c.flight].load || q.runs[c.flight].pending)
  }

  ghost predicate LoadsInv<T>(q: Request<T>)
    requires Wf(q)
  {
    && (forall l :: l in q.loads ==> l.at < q.clock && l.flight < q.clock)
    && (forall l :: l in q.loads && l.flight in q.runs ==> l.at <= q.runs[l.flight].load)
  }

  ghost predicate CountInv<T>(q: Request<T>)
    requires Wf(q)
  {
    |q.loads| + (if Pending(q) then 1 else 0) <= |q.calls|
  }

  ghost predicate PendingInv<T>(q: Request<T>)
    requires Wf(q)
  {
    Pending(q) ==> CalledBetween(q, q.flight.value, q.runs[q.flight.value].load, q.clock)
  }

  ghost predicate Separated<T>(q: Request<T>, l: Load, m: Load) {
    l.flight == m.flight && l.at < m.at ==> CalledBetween(q, l.flight, l.at, m.at)
  }

  ghost predicate FollowUpsInv<T>(q: Request<T>) {
    forall l, m :: l in q.loads && m in q.loads ==> Separated(q, l, m)
  }

  /** Deliveries are ordered, disjoint intervals, all before the live load. */
  ghost predicate DeliveriesInv<T>(q: Request<T>)
    requires Wf(q)
  {
    && (forall i :: 0 <= i < |q.deliveries| ==> q.deliveries[i].start < q.deliveries[i].end < q.clock)
    && (forall i, j :: 0 <= i < j < |q.deliveries| ==> q.deliveries[i].end <= q.deliveries[j].start)
    && (forall i :: 0 <= i < |q.deliveries| && q.flight.Some?
          ==> q.deliveries[i].end <= q.runs[q.flight.value].load)
  }

  ghost predicate Inv<T>(q: Request<T>) {
    && RunsInv(q) && StartedInv(q) && CallsInv(q) && LoadsInv(q)
    && CountInv(q) && PendingInv(q) && FollowUpsInv(q) && DeliveriesInv(q)
  }

  lemma CalledBetweenGrows<T>(q: Request<T>, q': Request<T>)
    requires q.calls <= q'.calls
    ensures forall f: nat, from: nat, to: nat :: CalledBetween(q, f, from, to) ==> CalledBetween(q', f, from, to)
  {
    forall f: nat, from: nat, to: nat | CalledBetween(q, f, from, to)
      ensures CalledBetween(q', f, from, to)
    {
      var c :| c in q.calls && c.flight == f && from < c.at <= to;
      assert c in q'.calls;
    }
  }

  /** The runs after one resumption, in both outcomes of the loop condition. */
  predicate Loops<T>(q: Request<T>, f: nat, cancels: bool)
    requires Settled(q, f)
  {
    q.flight == Some(f) && q.runs[f].pending && !(cancels && Delivered(q, f).Some?)
  }

  lemma ResumeShape<T>(q: Request<T>, f: nat, cancels: bool)
    requires Wf(q) && Settled(q, f)
    ensures var q' := Step(q, RunResumed(f, cancels));
      && q.clock < q'.clock
      && q'.calls == q.calls
      && q'.deliveries == Record(q, f).deliveries
      && q.cancelled <= q'.cancelled <= q.cancelled + {f}
      && (f in q'.cancelled - q.cancelled ==> q.flight == Some(f))
      && (if Loops(q, f, cancels) then
            && q'.flight == q.flight && q'.cancelled == q.cancelled
            && q'.runs == q.runs[f := Run(false, false, q.clock, None)]
            && q'.loads == q.loads + {Load(q.clock, f)}
          else
            && q'.flight == (if q.flight == Some(f) then None else q.flight)
            && (forall g :: g in q'.runs <==> g in q.runs && g != f)
            && (forall g :: g in q'.runs ==> q'.runs[g] == q.runs[g])
            && q'.loads == q.loads
            && (q.flight == Some(f) && q.runs[f].pending ==> f in q'.cancelled))
  {}

  lemma ResumeKeepsRuns<T>(q: Request<T>, f: nat, cancels: bool)
    requires RunsInv(q) && Settled(q, f)
    ensures RunsInv(Step(q, RunResumed(f, cancels)))
  {
    ResumeShape(q, f, cancels);
  }

  lemma StepKeepsRuns<T>(q: Request<T>, e: Event<T>)
    requires RunsInv(q)
    ensures RunsInv(Step(q, e))
  {
    if e.RunResumed? && Settled(q, e.flight) { ResumeKeepsRuns(q, e.flight, e.cancels); }
  }

  lemma StepKeepsStarted<T>(q: Request<T>, e: Event<T>)
    requires RunsInv(q) && StartedInv(q)
    ensures StartedInv(Step(q, e))
  {
    if e.RunResumed? && Settled(q, e.flight) { ResumeShape(q, e.flight, e.cancels); }
  }

  lemma ResumeKeepsDeliveries<T>(q: Request<T>, f: nat, cancels: bool)
    requires RunsInv(q) && DeliveriesInv(q) && Settled(q, f)
    ensures Wf(Step(q, RunResumed(f, cancels))) && DeliveriesInv(Step(q, RunResumed(f, cancels)))
  {
    ResumeShape(q, f, cancels);
  }

  lemma StepKeepsDeliveries<T>(q: Request<T>, e: Event<T>)
    requires RunsInv(q) && DeliveriesInv(q)
    ensures Wf(Step(q, e)) && DeliveriesInv(Step(q, e))
  {
    StepKeepsRuns(q, e);
    if e.RunResumed? && Settled(q, e.flight) { ResumeKeepsDeliveries(q, e.flight, e.cancels); }
  }

  lemma StepKeepsLoads<T>(q: Request<T>, e: Event<T>)
    requires RunsInv(q) && LoadsInv(q)
    ensures Wf(Step(q, e)) && LoadsInv(Step(q, e))
  {
    StepKeepsRuns(q, e);
    if e.RunResumed? && Settled(q, e.flight) { ResumeShape(q, e.flight, e.cancels); }
  }

  /** A call costs at most one load: its own, or the one it leaves pending. */
  lemma CallIsCounted<T>(q: Request<T>)
    requires RunsInv(q) && CallsInv(q)
    ensures var q' := Step(q, RefreshCall);
      && |q'.calls| == |q.calls| + 1
      && |q'.loads| <= |q.loads| + if q.flight.None? then 1 else 0
  {
    assert Call(q.clock, q.flight.GetOr(q.clock)) !in q.calls;
    assert Step(q, RefreshCall).calls == q.calls + {Call(q.clock, q.flight.GetOr(q.clock))};
    if q.flight.None? { AtMostOneMore(q.loads, Load(q.clock, q.clock)); }
  }

  lemma AtMostOneMore<U>(s: set<U>, x: U)
    ensures |s + {x}| <= |s| + 1
  {
    assert s + {x} == s + ({x} - s) && s !! ({x} - s);
    assert {x} - s == {} || {x} - s == {x};
  }

  lemma StepKeepsCount<T>(q: Request<T>, e: Event<T>)
    requires RunsInv(q) && CallsInv(q) && CountInv(q)
    ensures Wf(Step(q, e)) && CountInv(Step(q, e))
  {
    StepKeepsRuns(q, e);
    if e == RefreshCall {
      CallIsCounted(q);
    } else if e.RunResumed? && Settled(q, e.flight) {
      ResumeShape(q, e.flight, e.cancels);
    }
  }

  lemma StepKeepsCalls<T>(q: Request<T>, e: Event<T>)
    requires RunsInv(q) && StartedInv(q) && CallsInv(q)
    ensures Wf(Step(q, e)) && CallsInv(Step(q, e))
  {
    var q' := Step(q, e);
    StepKeepsRuns(q, e);
    if e.RunResumed? && Settled(q, e.flight) { ResumeShape(q, e.flight, e.cancels); }
    forall c | c in q'.calls
      ensures c.at < q'.clock && c.flight < q'.clock && Answered(q', c)
    {
      StepKeepsAnswered(q, e, c);
    }
  }

  lemma StepKeepsAnswered<T>(q: Request<T>, e: Event<T>, c: Call)
    requires RunsInv(q) && StartedInv(q) && CallsInv(q) && c in Step(q, e).calls
    ensures Wf(Step(q, e)) && c.at < Step(q, e).clock && c.flight < Step(q, e).clock && Answered(Step(q, e), c)
  {
    var q' := Step(q, e);
    if c in q.calls {
      assert Answered(q, c);
      match e
      case RefreshCall =>
      case CancelCall =>
      case LoadSettled(f, load, o) =>
      case TimedOut(f) =>
      case RunResumed(f, cancels) =>
        if Settled(q, f) {
          ResumeShape(q, f, cancels);
          if Loops(q, f, cancels) {
            assert Load(q.clock, f) in q'.loads;
          } else if q.flight == Some(f) == Some(c.flight) && !q.runs[f].pending {
            assert Load(q.runs[f].load, f) in q'.loads;
          }
        }
    } else {
      assert e == RefreshCall;
      assert Load(q.clock, q.clock) in Refresh(q).loads || q.flight.Some?;
    }
  }

  lemma StepKeepsPending<T>(q: Request<T>, e: Event<T>)
    requires RunsInv(q) && PendingInv(q)
    ensures Wf(Step(q, e)) && PendingInv(Step(q, e))
  {
    var q' := Step(q, e);
    StepKeepsRuns(q, e);
    if e == RefreshCall {
      assert Call(q.clock, q.flight.GetOr(q.clock)) in q'.calls;
    } else {
      CalledBetweenGrows(q, q');
      if e.RunResumed? && Settled(q, e.flight) { ResumeShape(q, e.flight, e.cancels); }
    }
  }

  lemma StepKeepsFollowUps<T>(q: Request<T>, e: Event<T>)
    requires RunsInv(q) && LoadsInv(q) && PendingInv(q) && FollowUpsInv(q)
    ensures FollowUpsInv(Step(q, e))
  {
    var q' := Step(q, e);
    CalledBetweenGrows(q, q');
    forall l, m | l in q'.loads && m in q'.loads
      ensures Separated(q', l, m)
    {
      if e.RunResumed? && Settled(q, e.flight) {
        ResumeShape(q, e.flight, e.cancels);
        if l in q.loads && m in q.loads {
          assert Separated(q, l, m);
        } else if l in q.loads && l.flight == m.flight {
          var c :| c in q.calls && c.flight == l.flight && q.runs[l.flight].load < c.at <= q.clock;
          assert c in q'.calls;
        }
      } else if l in q.loads && m in q.loads {
        assert Separated(q, l, m);
      }
    }
  }

  lemma StepKeepsInv<T>(q: Request<T>, e: Event<T>)
    requires Inv(q)
    ensures Inv(Step(q, e))
  {
    StepKeepsRuns(q, e);
    StepKeepsStarted(q, e);
    StepKeepsDeliveries(q, e);
    StepKeepsLoads(q, e);
    StepKeepsCalls(q, e);
    StepKeepsCount(q, e);
    StepKeepsPending(q, e);
    StepKeepsFollowUps(q, e);
  }

  // ----- Every run ---------------------------------------------------------

  function After<T>(es: seq<Event<T>>): (q: Request<T>)
    ensures Wf(q)
  {
    if es == [] then Init() else Step(After(es[..|es| - 1]), es[|es| - 1])
  }

  lemma {:induction false} RunKeepsInv<T>(es: seq<Event<T>>)
    ensures Inv(After(es))
  {
    if es != [] {
      RunKeepsInv(es[..|es| - 1]);
      StepKeepsInv(After(es[..|es| - 1]), es[|es| - 1]);
    }
  }

  /** A call whose flight has ended uncancelled was followed by a load of that
      flight that started at or after it. */
  lemma NoLostRefresh<T>(es: seq<Event<T>>, c: Call)
    requires var q := After(es);
      c in q.calls && c.flight !in q.cancelled && c.flight !in q.runs
    ensures exists l :: l in After(es).loads && l.flight == c.flight && c.at <= l.at
  {
    RunKeepsInv(es);
    assert Answered(After(es), c);
  }

  /** Two loads of one flight have a call of that flight between them, so the
      calls made during one load cost one follow-up; loads never outnumber calls. */
  lemma CallsShareOneFollowUp<T>(es: seq<Event<T>>)
    ensures var q := After(es);
      && |q.loads| <= |q.calls|
      && forall l, m :: l in q.loads && m in q.loads && l.flight == m.flight && l.at < m.at ==>
           exists c :: c in q.calls && c.flight == l.flight && l.at < c.at <= m.at
  {
    RunKeepsInv(es);
    var q := After(es);
    forall l, m | l in q.loads && m in q.loads && l.flight == m.flight && l.at < m.at
      ensures exists c :: c in q.calls && c.flight == l.flight && l.at < c.at <= m.at
    {
      assert Separated(q, l, m);
    }
  }

  /** A call made during a live load does get its follow-up: when the load is
      resumed and nobody cancels, the next load starts in the same step. */
  lemma CallDuringLoadIsFollowedUp<T>(es: seq<Event<T>>, c: Call, f: nat)
    requires var q := After(es);
      && q.flight == Some(f) && Settled(q, f)
      && c in q.calls && c.flight == f && q.runs[f].load < c.at
    ensures var q := After(es); var q' := Step(q, RunResumed(f, false));
      && q'.flight == Some(f)
      && q'.loads == q.loads + {Load(q.clock, f)}
      && !q'.runs[f].pending && Awaiting(q', f)
  {
    RunKeepsInv(es);
    ResumeShape(After(es), f, false);
  }

  /** What reached the handlers came from loads with disjoint, ordered intervals. */
  lemma DeliveriesAreDisjoint<T>(es: seq<Event<T>>, i: nat, j: nat)
    requires i < j < |After(es).deliveries|
    ensures var d := After(es).deliveries;
      d[i].start < d[i].end <= d[j].start < d[j].end
  {
    RunKeepsInv(es);
  }

  /** Of all suspended reads at most one is healthy, and it belongs to the flight. */
  lemma {:induction false} OneHealthyRead<T>(es: seq<Event<T>>, f: nat)
    requires f in After(es).runs && !After(es).runs[f].aborted
    ensures After(es).flight == Some(f)
  {
    RunKeepsInv(es);
  }

  /** A cancelled run that is resumed later delivers nothing, starts nothing and
      leaves the live flight alone. */
  lemma {:induction false} ZombieIsSilent<T>(es: seq<Event<T>>, f: nat, cancels: bool)
    requires f in After(es).runs && After(es).flight != Some(f)
    ensures Settled(After(es), f)
    ensures var q := After(es); var q' := Step(q, RunResumed(f, cancels));
      && q'.deliveries == q.deliveries && q'.flight == q.flight
      && q'.loads == q.loads && q'.calls == q.calls
      && q'.runs == q.runs - {f}
  {
    RunKeepsInv(es);
    ResumeShape(After(es), f, cancels);
  }

  /** Nothing that reaches a live flight is dropped. */
  lemma LiveSettlementIsDelivered<T>(es: seq<Event<T>>, f: nat)
    requires Settled(After(es), f) && After(es).flight == Some(f)
    ensures Delivered(After(es), f) == After(es).runs[f].settled
  {
    RunKeepsInv(es);
  }

  // ----- A load's end --------------------------------------------------------------------

  function Runs<T>(q: Request<T>, a: Event<T>, b: Event<T>): Request<T>
    requires Wf(q)
  {
    Step(Step(q, a), b)
  }

  /** What a live flight does when its load is over: the handler gets this outcome and
      nothing else, and the flight ends, or goes on to one more load exactly if a call came
      since that load began. */
  ghost predicate Ends<T>(q: Request<T>, q': Request<T>, f: nat, outcome: Outcome<T>)
    requires f in q.runs
  {
    && (exists end :: q'.deliveries == q.deliveries + [Delivery(q.runs[f].load, end, outcome)])
    && var called := exists c :: c in q.calls && c.flight == f && q.runs[f].load < c.at;
       && q'.flight == (if called then Some(f) else None)
       && (called <==> f in q'.runs)
       && (called ==> Awaiting(q', f) && !q'.runs[f].pending && Load(q'.runs[f].load, f) !in q.loads)
       && q'.loads == (if called then q.loads + {Load(q'.runs[f].load, f)} else q.loads)
  }

  lemma PendingMeansCalled<T>(q: Request<T>, f: nat)
    requires Inv(q) && q.flight == Some(f)
    ensures q.runs[f].pending <==> exists c :: c in q.calls && c.flight == f && q.runs[f].load < c.at
  {
    if q.runs[f].pending {
      assert CalledBetween(q, f, q.runs[f].load, q.clock);
    }
  }

  lemma SettledFlightEnds<T>(q: Request<T>, f: nat)
    requires Inv(q) && q.flight == Some(f) && Settled(q, f)
    ensures Ends(q, Step(q, RunResumed(f, false)), f, q.runs[f].settled.value)
  {
    ResumeShape(q, f, false);
    PendingMeansCalled(q, f);
    var q' := Step(q, RunResumed(f, false));
    assert q'.deliveries == q.deliveries + [Delivery(q.runs[f].load, q.clock, q.runs[f].settled.value)];
    if q.runs[f].pending { assert Load(q.clock, f) !in q.loads; }
  }

  /** A load that never answers is given up: in every reachable state with a live load out,
      its timeout ends it with the timeout error; and an answer that comes after all
      changes nothing. */
  lemma {:induction false} TimeoutEndsTheLoad<T>(es: seq<Event<T>>, f: nat)
    requires After(es).flight == Some(f) && Awaiting(After(es), f)
    ensures Ends(After(es), Runs(After(es), TimedOut(f), RunResumed(f, false)), f, Rejected(Other("Refresh timed out")))
    ensures Step(After(es), TimedOut(f)).runs[f].aborted
    ensures forall g, late :: var q := Step(After(es), TimedOut(f));
      Step(q, LoadSettled(f, g, late)) == q.(clock := q.clock + 1)
  {
    RunKeepsInv(es);
    StepKeepsInv(After(es), TimedOut(f));
    SettledFlightEnds(Step(After(es), TimedOut(f)), f);
  }

  /** A load that answers in time ends with its answer, and no timeout or second answer
      after it changes that. */
  lemma {:induction false} AnswerEndsTheLoad<T>(es: seq<Event<T>>, f: nat, outcome: Outcome<T>)
    requires After(es).flight == Some(f) && Awaiting(After(es), f)
    ensures var q := After(es);
      Ends(q, Runs(q, LoadSettled(f, q.runs[f].load, outcome), RunResumed(f, false)), f, outcome)
    ensures var q := Step(After(es), LoadSettled(f, After(es).runs[f].load, outcome));
      && Step(q, TimedOut(f)) == q.(clock := q.clock + 1)
      && forall g, late :: Step(q, LoadSettled(f, g, late)) == q.(clock := q.clock + 1)
  {
    RunKeepsInv(es);
    var q := After(es);
    var event := LoadSettled(f, q.runs[f].load, outcome);
    StepKeepsInv(q, event);
    SettledFlightEnds(Step(q, event), f);
  }

  /** An answer of any other load is not heard. */
  lemma StaleAnswerIsIgnored<T>(q: Request<T>, f: nat, load: nat, late: Outcome<T>)
    requires Wf(q) && !(Awaiting(q, f) && q.runs[f].load == load)
    ensures Step(q, LoadSettled(f, load, late)) == q.(clock := q.clock + 1)
  {}

  /** A call starts a load then and there if none is live, and otherwise asks the live
      flight for one more; it is on record. */
  lemma {:induction false} CallStartsOrJoins<T>(es: seq<Event<T>>)
    ensures var q, q' := After(es), After(es + [RefreshCall]);
      && q'.flight.Some? && q'.calls == q.calls + {Call(q.clock, q'.flight.value)}
      && (if q.flight.None? then
            Awaiting(q', q'.flight.value) && q'.runs[q'.flight.value].load == q.clock
            && q'.loads == q.loads + {Load(q.clock, q'.flight.value)}
          else
            q'.flight == q.flight && q'.loads == q.loads && q'.runs[q.flight.value].pending)
  {
    RunKeepsInv(es);
    assert (es + [RefreshCall])[..|es|] == es;
  }

  /** A cancellation leaves no flight, and what the run it detached still waits for is
      settled there and then. */
  lemma {:induction false} CancelDetaches<T>(es: seq<Event<T>>)
    ensures var q, q' := After(es), After(es + [CancelCall]);
      && q'.flight.None? && q'.loads == q.loads && q'.deliveries == q.deliveries
      && (q.flight.Some? ==>
            q.flight.value in q'.cancelled && Settled(q', q.flight.value) && q'.runs[q.flight.value].aborted)
  {
    RunKeepsInv(es);
    assert (es + [CancelCall])[..|es|] == es;
  }

  // ----- Server versions ---------------------------------------------------

  /** A value shows the server at some moment between request and response. */
  predicate Honest<T>(q: Request<T>, e: Event<T>) {
    e.LoadSettled? && e.outcome.Value? ==> e.load <= e.outcome.readAt <= q.clock
  }

  predicate HonestRun<T>(es: seq<Event<T>>) {
    es == [] || (HonestRun(es[..|es| - 1]) && Honest(After(es[..|es| - 1]), es[|es| - 1]))
  }

  ghost predicate ReadsInv<T>(q: Request<T>) {
    && (forall f :: Settled(q, f) && q.runs[f].settled.value.Value?
          ==> q.runs[f].load <= q.runs[f].settled.value.readAt <= q.clock)
    && (forall i :: 0 <= i < |q.deliveries| && q.deliveries[i].outcome.Value?
          ==> q.deliveries[i].start <= q.deliveries[i].outcome.readAt <= q.deliveries[i].end)
  }

  lemma StepKeepsReads<T>(q: Request<T>, e: Event<T>)
    requires Wf(q) && ReadsInv(q) && Honest(q, e)
    ensures ReadsInv(Step(q, e))
  {
    if e.RunResumed? && Settled(q, e.flight) { ResumeShape(q, e.flight, e.cancels); }
  }

  lemma {:induction false} RunKeepsReads<T>(es: seq<Event<T>>)
    requires HonestRun(es)
    ensures ReadsInv(After(es))
  {
    if es != [] {
      RunKeepsReads(es[..|es| - 1]);
      StepKeepsReads(After(es[..|es| - 1]), es[|es| - 1]);
    }
  }

  /** Values are applied in the order of the server moments they show. */
  lemma VersionsNeverGoBack<T>(es: seq<Event<T>>, i: nat, j: nat)
    requires HonestRun(es)
    requires i < j < |After(es).deliveries|
    requires After(es).deliveries[i].outcome.Value? && After(es).deliveries[j].outcome.Value?
    ensures After(es).deliveries[i].outcome.readAt <= After(es).deliveries[j].outcome.readAt
  {
    RunKeepsReads(es);
    DeliveriesAreDisjoint(es, i, j);
  }
}
