/** What the polling resource shows: its view as a function of what was delivered to it and
    written to it, and where each value shown came from. */
module ResourceView {
  import opened Wrappers
  import RP = RefreshProtocol
  import opened ResourceProtocol

  // ----- The data is the last write -----------------------------------------------------

  function LastWritten<T>(initial: T, writes: seq<Write<T>>): T {
    if writes == [] then initial else writes[|writes| - 1].value
  }

  /** The writes that loads made, in order. */
  function Loaded<T>(writes: seq<Write<T>>): seq<Write<T>> {
    if writes == [] then []
    else
      var last := writes[|writes| - 1];
      Loaded(writes[..|writes| - 1]) + if last.local then [] else [last]
  }

  /** The values among the deliveries, as writes. */
  function ValuesOf<T>(deliveries: seq<RP.Delivery<T>>): seq<Write<T>> {
    if deliveries == [] then []
    else
      var d := deliveries[|deliveries| - 1];
      ValuesOf(deliveries[..|deliveries| - 1]) +
      if d.outcome.Value? then [Write(false, d.start, d.end, d.outcome.readAt, d.outcome.value)] else []
  }

  /** How many of the last deliveries, up to the end, were failures. */
  function FailuresInARow<T>(deliveries: seq<RP.Delivery<T>>): nat {
    if deliveries == [] || deliveries[|deliveries| - 1].outcome.Value? then 0
    else 1 + FailuresInARow(deliveries[..|deliveries| - 1])
  }

  /** What the last delivery leaves in the view. */
  predicate ShowsLast<T>(view: View<T>, deliveries: seq<RP.Delivery<T>>) {
    if deliveries == [] then !view.ready && view.failure.None? && view.error == "" && !view.unauthorized
    else
      match deliveries[|deliveries| - 1].outcome
      case Value(_, _) => view.ready && view.failure.None? && view.error == "" && !view.unauthorized
      case Rejected(e) =>
        view.failure == Some(e) && view.error == e.message && view.unauthorized == e.Unauthorized?
  }

  ghost predicate DataInv<T>(initial: T, r: Resource<T>) {
    && r.view.data == LastWritten(initial, r.writes)
    && Loaded(r.writes) == ValuesOf(r.request.deliveries)
  }

  ghost predicate OutcomeInv<T>(r: Resource<T>) {
    && ShowsLast(r.view, r.request.deliveries)
    && r.failures == FailuresInARow(r.request.deliveries)
    && (r.view.ready <==> ValuesOf(r.request.deliveries) != [])
  }

  predicate ProgressInv<T>(r: Resource<T>) {
    (r.view.refreshing ==> r.reading && r.view.ready) && (r.view.loading ==> !r.view.ready)
  }

  ghost predicate ViewInv<T>(initial: T, r: Resource<T>) {
    DataInv(initial, r) && OutcomeInv(r) && ProgressInv(r)
  }

  lemma LoadedSnoc<T>(writes: seq<Write<T>>, w: Write<T>)
    ensures Loaded(writes + [w]) == Loaded(writes) + if w.local then [] else [w]
    ensures LastWritten(w.value, writes + [w]) == w.value
  {
    assert (writes + [w])[..|writes|] == writes;
  }

  lemma DeliveriesSnoc<T>(ds: seq<RP.Delivery<T>>, d: RP.Delivery<T>)
    ensures ValuesOf(ds + [d]) == ValuesOf(ds) +
      if d.outcome.Value? then [Write(false, d.start, d.end, d.outcome.readAt, d.outcome.value)] else []
    ensures FailuresInARow(ds + [d]) == if d.outcome.Value? then 0 else 1 + FailuresInARow(ds)
  {
    assert (ds + [d])[..|ds|] == ds;
  }

  /** What a delivery leaves in the fields it touches; an error leaves the data. */
  ghost predicate Delivers<T>(r: Resource<T>, r': Resource<T>, d: RP.Delivery<T>) {
    && r'.request.deliveries == r.request.deliveries + [d]
    && match d.outcome
       case Value(v, readAt) =>
         && r'.view == r.view.(data := v, ready := true, loading := false, error := "", failure := None)
         && r'.writes == r.writes + [Write(false, d.start, d.end, readAt, v)]
         && r'.failures == 0 && r'.reading == r.reading
       case Rejected(e) =>
         && r'.view == r.view.(loading := false, error := e.message, failure := Some(e),
                               unauthorized := e.Unauthorized?, refreshing := r'.view.refreshing)
         && (r'.view.refreshing ==> r.view.refreshing && r'.reading == r.reading)
         && r'.writes == r.writes && r'.failures == r.failures + 1
  }

  lemma RunDelivers<T>(r: Resource<T>, f: nat)
    requires Inv(r) && RP.Settled(r.request, f)
    ensures var r' := ResumeRun(r, f);
      if RP.Delivered(r.request, f).Some? then
        Delivers(r, r', RP.Delivery(r.request.runs[f].load, r.request.clock, RP.Delivered(r.request, f).value))
      else
        && r'.view == r.view && r'.writes == r.writes && r'.failures == r.failures && r'.reading == r.reading
        && r'.request.deliveries == r.request.deliveries
  {
    RP.ResumeShape(r.request, f, Pauses(r, f));
  }

  lemma DeliveryShows<T>(initial: T, r: Resource<T>, r': Resource<T>, d: RP.Delivery<T>)
    requires Delivers(r, r', d) && ViewInv(initial, r) && !r.view.unauthorized
    ensures ViewInv(initial, r')
  {
    DeliveriesSnoc(r.request.deliveries, d);
    if d.outcome.Value? { LoadedSnoc(r.writes, Write(false, d.start, d.end, d.outcome.readAt, d.outcome.value)); }
  }

  lemma RunShows<T>(initial: T, r: Resource<T>, f: nat)
    requires Inv(r) && ViewInv(initial, r) && RP.Settled(r.request, f)
    ensures ViewInv(initial, ResumeRun(r, f))
  {
    RunDelivers(r, f);
    if RP.Delivered(r.request, f).Some? {
      var d := RP.Delivery(r.request.runs[f].load, r.request.clock, RP.Delivered(r.request, f).value);
      DeliveryShows(initial, r, ResumeRun(r, f), d);
    }
  }

  /** Every other step leaves the outcome alone; only a local write touches the data. */
  ghost predicate Untouched<T>(r: Resource<T>, r': Resource<T>) {
    && r'.request.deliveries == r.request.deliveries && r'.failures == r.failures
    && r'.view.ready == r.view.ready && r'.view.error == r.view.error && r'.view.failure == r.view.failure
    && r'.view.unauthorized == r.view.unauthorized
  }

  lemma OthersLeaveOutcome<T>(r: Resource<T>, e: Event<T>)
    requires Wf(r) && !e.RunEvent?
    ensures Untouched(r, Step(r, e))
  {}

  lemma OthersLeaveData<T>(r: Resource<T>, e: Event<T>)
    requires Wf(r) && !e.RunEvent? && !e.SetDataEvent?
    ensures Step(r, e).view.data == r.view.data && Step(r, e).writes == r.writes
  {}

  lemma OthersKeepProgress<T>(r: Resource<T>, e: Event<T>)
    requires Wf(r) && !e.RunEvent? && ProgressInv(r)
    ensures ProgressInv(Step(r, e))
  {}

  lemma StepShows<T>(initial: T, r: Resource<T>, e: Event<T>)
    requires Inv(r) && ViewInv(initial, r)
    ensures ViewInv(initial, Step(r, e))
  {
    if e.RunEvent? {
      if RP.Settled(r.request, e.flight) { RunShows(initial, r, e.flight); }
    } else {
      OthersLeaveOutcome(r, e);
      OthersKeepProgress(r, e);
      if e.SetDataEvent? {
        SetDataShows(initial, r, e.data);
      } else {
        OthersLeaveData(r, e);
      }
    }
  }

  lemma SetDataShows<T>(initial: T, r: Resource<T>, v: T)
    requires Wf(r) && DataInv(initial, r)
    ensures DataInv(initial, SetData(r, v))
  {
    var w := Write(true, r.request.clock, r.request.clock, r.request.clock, v);
    assert SetData(r, v).writes == r.writes + [w];
    LoadedSnoc(r.writes, w);
  }

  /** In every run the data shown is the value last written, or the initial data; the writes
      that are not local are exactly the values delivered, in order; and the failure, the
      error text, the count of failures and the other flags are those of the deliveries. */
  lemma {:induction false} ViewShowsWhatWasDelivered<T>(initial: T, es: seq<Event<T>>)
    ensures var r := After(initial, es); ViewInv(initial, r)
  {
    if es != [] {
      ViewShowsWhatWasDelivered(initial, es[..|es| - 1]);
      ReachableInv(initial, es[..|es| - 1]);
      StepShows(initial, After(initial, es[..|es| - 1]), es[|es| - 1]);
    }
  }

  /** A value that reaches a live flight is shown at once, without error, and a failure is
      reported at once, over the data there was. */
  lemma {:induction false} OutcomeIsShown<T>(initial: T, es: seq<Event<T>>, f: nat)
    requires var r := After(initial, es); RP.Settled(r.request, f) && r.request.flight == Some(f)
    ensures var r, r' := After(initial, es), After(initial, es + [RunEvent(f)]);
      match r.request.runs[f].settled.value
      case Value(v, _) => r'.view.data == v && r'.view.ready && r'.view.failure.None? && r'.failures == 0
      case Rejected(e) => r'.view.data == r.view.data && r'.view.failure == Some(e) && r'.failures == r.failures + 1
  {
    ReachableInv(initial, es);
    var r := After(initial, es);
    assert (es + [RunEvent(f)])[..|es|] == es;
    assert RP.Delivered(r.request, f) == r.request.runs[f].settled;
  }

  /** A local write is shown at once, and the read it interrupts is over. */
  lemma LocalWriteIsShown<T>(initial: T, es: seq<Event<T>>, v: T)
    ensures var r, r' := After(initial, es), After(initial, es + [SetDataEvent(v)]);
      && r'.view == r.view.(data := v, refreshing := false) && r'.request.flight.None?
      && r'.writes == r.writes + [Write(true, r.request.clock, r.request.clock, r.request.clock, v)]
  {
    assert (es + [SetDataEvent(v)])[..|es|] == es;
  }

  // ----- Where values come from ---------------------------------------------------------

  /** Some load with this number answered with this value. */
  ghost predicate Answered<T(!new)>(es: seq<Event<T>>, load: nat, v: T, readAt: nat) {
    exists f: nat :: LoadEvent(f, load, RP.Value(v, readAt)) in es
  }

  ghost predicate Sourced<T(!new)>(es: seq<Event<T>>, r: Resource<T>) {
    && (forall f :: RP.Settled(r.request, f) && r.request.runs[f].settled.value.Value? ==>
          Answered(es, r.request.runs[f].load, r.request.runs[f].settled.value.value,
                   r.request.runs[f].settled.value.readAt))
    && (forall i :: 0 <= i < |r.writes| ==>
          if r.writes[i].local then SetDataEvent(r.writes[i].value) in es
          else Answered(es, r.writes[i].start, r.writes[i].value, r.writes[i].readAt))
  }

  lemma SourcedGrows<T(!new)>(es: seq<Event<T>>, e: Event<T>, r: Resource<T>)
    requires Sourced(es, r)
    ensures Sourced(es + [e], r)
  {
    forall load, v, readAt | Answered(es, load, v, readAt) ensures Answered(es + [e], load, v, readAt) {
      var f: nat :| LoadEvent(f, load, RP.Value(v, readAt)) in es;
      assert LoadEvent(f, load, RP.Value(v, readAt)) in es + [e];
    }
  }

  lemma RunKeepsSourced<T(!new)>(es: seq<Event<T>>, r: Resource<T>, f: nat)
    requires Inv(r) && Sourced(es, r) && RP.Settled(r.request, f)
    ensures Sourced(es, ResumeRun(r, f))
  {
    RP.ResumeShape(r.request, f, Pauses(r, f));
    RunDelivers(r, f);
  }

  lemma CallKeepsSourced<T(!new)>(es: seq<Event<T>>, r: Resource<T>, e: Event<T>)
    requires Wf(r) && Sourced(es, r) && e in es && !e.RunEvent? && !e.LoadEvent?
    ensures Sourced(es, Step(r, e))
  {
    if !e.SetDataEvent? { OthersLeaveData(r, e); }
  }

  lemma StepKeepsSourced<T(!new)>(es: seq<Event<T>>, r: Resource<T>, e: Event<T>)
    requires Inv(r) && Sourced(es, r) && e in es
    ensures Sourced(es, Step(r, e))
  {
    if e.RunEvent? {
      if RP.Settled(r.request, e.flight) { RunKeepsSourced(es, r, e.flight); }
    } else if e.LoadEvent? {
      if e.outcome.Value? { assert Answered(es, e.load, e.outcome.value, e.outcome.readAt); }
    } else {
      CallKeepsSourced(es, r, e);
    }
  }

  /** Every value ever shown is what the load of that number answered in this run, or what
      was set locally. */
  lemma {:induction false} ShownValuesAreSourced<T(!new)>(initial: T, es: seq<Event<T>>)
    ensures Sourced(es, After(initial, es))
  {
    if es != [] {
      var front, e := es[..|es| - 1], es[|es| - 1];
      ShownValuesAreSourced(initial, front);
      ReachableInv(initial, front);
      assert es == front + [e];
      SourcedGrows(front, e, After(initial, front));
      StepKeepsSourced(es, After(initial, front), e);
    }
  }

  // ----- Who polls --------------------------------------------------------------------------

  /** An active resource nobody waits for stops polling exactly without an interval to poll
      at, or after a failure that may not, or may no longer, be retried: an authorization
      failure, an answer below 500 other than a timeout or too many requests, retries
      switched off, or more failures in a row than are allowed.  Otherwise it waits for its
      interval, or after failures for as long as so many in a row ask. */
  lemma {:induction false} IdleResourceStopsExactly<T>(initial: T, es: seq<Event<T>>)
    requires var r := After(initial, es); r.active && forall w :: !Current(r, w)
    ensures var r := After(initial, es);
      r.timer.None? <==>
        match r.view.failure
        case None => r.interval.None?
        case Some(failure) =>
          || !r.retryOnError
          || (r.maxRetries.Some? && r.maxRetries.value < FailuresInARow(r.request.deliveries))
          || failure.Unauthorized?
          || (failure.Api? && failure.status < 500 && failure.status != 408 && failure.status != 429)
    ensures var r := After(initial, es);
      r.timer.Some? ==>
        r.timer == if r.view.failure.None? then r.interval
                   else Some(RetryDelay(r.interval, FailuresInARow(r.request.deliveries)))
  {
    ReachableInv(initial, es);
    ViewShowsWhatWasDelivered(initial, es);
  }

  /** The first retry waits twice the interval, or two seconds without one; each further
      failure doubles the wait up to the fifth, never beyond half a minute. */
  lemma RetryDelayDoubles(interval: Option<nat>, failures: nat)
    ensures RetryDelay(interval, 1) == Min(30_000, 2 * interval.GetOr(1_000))
    ensures 1 <= failures < 5 ==>
      RetryDelay(interval, failures + 1) == Min(30_000, 2 * RetryDelay(interval, failures))
    ensures 5 <= failures ==> RetryDelay(interval, failures) == RetryDelay(interval, 5)
  {
  }
}
